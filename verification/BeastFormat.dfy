/** The Beast wire format, and what any splitter that keeps the laws of a Beast splitter
    makes of well-formed streams. */
module BeastFormat {
  import opened Basics
  import opened StreamSplitter

  const ESC: byte := 0x1A
  const TOKEN_BUF_LEN := 50

  /** Length of an unescaped message by its type byte. */
  function MessageLength(t: byte): (n: Option<nat>)
    ensures n.Some? ==> 11 <= n.value <= 23 && t != ESC
  {
    if t == 0x31 then Some(11)
    else if t == 0x32 then Some(16)
    else if t == 0x33 then Some(23)
    else if t == 0x34 then Some(11)
    else None
  }

  /** What a frame carries by its type: Mode A/C, Mode S short, Mode S long, configuration. */
  function DataLength(kind: byte): Option<nat> {
    if kind == 0x31 then Some(2)
    else if kind == 0x32 then Some(7)
    else if kind == 0x33 then Some(14)
    else if kind == 0x34 then Some(2)
    else None
  }

  datatype Frame = Frame(kind: byte, payload: seq<byte>)

  /** The payload: 6 bytes of timestamp, 1 byte of signal level, and the data. */
  predicate WellFormed(f: Frame) {
    DataLength(f.kind).Some? && |f.payload| == 6 + 1 + DataLength(f.kind).value
  }

  predicate AllWellFormed(fs: seq<Frame>) {
    forall f :: f in fs ==> WellFormed(f)
  }

  /** A sender doubles every 0x1A after the leading one. */
  function Escape(p: seq<byte>): (s: seq<byte>)
    ensures |p| <= |s| <= 2 * |p|
  {
    if |p| == 0 then []
    else (if p[0] == ESC then [ESC, ESC] else [p[0]]) + Escape(p[1..])
  }

  function Print(f: Frame): seq<byte> {
    [ESC, f.kind] + Escape(f.payload)
  }

  function PrintAll(fs: seq<Frame>): seq<byte> {
    if |fs| == 0 then [] else Print(fs[0]) + PrintAll(fs[1..])
  }

  function Message(f: Frame): seq<byte> {
    [ESC, f.kind] + f.payload
  }

  function Messages(fs: seq<Frame>): (ms: seq<seq<byte>>)
    ensures |ms| == |fs| && forall k :: 0 <= k < |fs| ==> ms[k] == Message(fs[k])
  {
    seq(|fs|, k requires 0 <= k < |fs| => Message(fs[k]))
  }

  lemma {:induction false} EscapeAppend(a: seq<byte>, b: seq<byte>)
    ensures Escape(a + b) == Escape(a) + Escape(b)
  {
    if |a| == 0 {
      assert a + b == b;
    } else {
      assert (a + b)[1..] == a[1..] + b;
      EscapeAppend(a[1..], b);
    }
  }

  lemma {:induction false} EscapeClean(p: seq<byte>)
    requires ESC !in p
    ensures Escape(p) == p
  {
    if |p| > 0 {
      assert p == [p[0]] + p[1..];
      EscapeClean(p[1..]);
    }
  }

  // --- the laws -------------------------------------------------------------------

  /** A frame is returned whole once 50 bytes from its start have arrived. */
  ghost predicate ScansFrames(split: SplitFunc) {
    forall f, rest :: WellFormed(f) ==> split(Print(f) + rest) == FrameScan(f, rest)
  }

  function FrameScan(f: Frame, rest: seq<byte>): Scanned {
    if |Print(f) + rest| < TOKEN_BUF_LEN then MORE else Scanned(|Print(f)|, Some(Message(f)))
  }

  /** Bytes before the first 0x1A are skipped together with what it starts. */
  ghost predicate SkipsJunk(split: SplitFunc) {
    && (forall junk :: ESC !in junk ==> split(junk) == MORE)
    && (forall junk, s :: ESC !in junk && |s| > 0 && s[0] == ESC ==>
          split(junk + s) == if split(s).advance == 0 then MORE
                             else Scanned(|junk| + split(s).advance, split(s).token))
  }

  /** A doubled 0x1A is skipped as a pair. */
  ghost predicate SkipsPairs(split: SplitFunc) {
    forall s :: split([ESC, ESC] + s) == if |s| + 2 < 11 then MORE else Scanned(2, None)
  }

  ghost predicate BeastSplitter(split: SplitFunc) {
    InBounds(split) && Stable(split) && ScansFrames(split) && SkipsJunk(split) && SkipsPairs(split)
  }

  // --- round trip -------------------------------------------------------------------

  /** How many of the frames have their first byte at least 50 bytes before the end of a
      stream that goes on for tail bytes after them. */
  function Ready(fs: seq<Frame>, tail: nat): (k: nat)
    ensures k <= |fs|
  {
    if |fs| == 0 || |PrintAll(fs)| + tail < TOKEN_BUF_LEN then 0 else 1 + Ready(fs[1..], tail)
  }

  lemma {:induction false} ReadyExact(fs: seq<Frame>, tail: nat, k: nat)
    requires k < |fs|
    ensures k < Ready(fs, tail) <==> |PrintAll(fs[k..])| + tail >= TOKEN_BUF_LEN
  {
    if k == 0 {
      assert fs[0..] == fs;
    } else {
      ReadyExact(fs[1..], tail, k - 1);
      assert fs[1..][k - 1..] == fs[k..];
      PrintSuffixShorter(fs, k);
    }
  }

  lemma {:induction false} PrintSuffixShorter(fs: seq<Frame>, k: nat)
    requires k <= |fs|
    ensures |PrintAll(fs[k..])| <= |PrintAll(fs)|
  {
    if k == 0 {
      assert fs[0..] == fs;
    } else {
      PrintSuffixShorter(fs[1..], k - 1);
      assert fs[1..][k - 1..] == fs[k..];
    }
  }

  lemma DrainFrame(split: SplitFunc, f: Frame, rest: seq<byte>)
    requires InBounds(split) && ScansFrames(split) && WellFormed(f)
    ensures Drain(split, Print(f) + rest) ==
            if |Print(f) + rest| < TOKEN_BUF_LEN then Drained([], Print(f) + rest)
            else Drained([Message(f)] + Drain(split, rest).tokens, Drain(split, rest).rest)
  {
    var s := Print(f) + rest;
    assert split(s) == FrameScan(f, rest);
    assert s[|Print(f)|..] == rest;
  }

  /** Frames with enough bytes behind them come out, in order and unchanged; what
      follows them is scanned as if they had never been there. */
  lemma {:induction false} FramesThenTail(split: SplitFunc, fs: seq<Frame>, tail: seq<byte>)
    requires InBounds(split) && ScansFrames(split) && AllWellFormed(fs)
    ensures var k := Ready(fs, |tail|);
            var d := Drain(split, PrintAll(fs[k..]) + tail);
            Drain(split, PrintAll(fs) + tail) == Drained(Messages(fs[..k]) + d.tokens, d.rest)
  {
    var k := Ready(fs, |tail|);
    if k == 0 {
      assert fs[0..] == fs;
      assert Messages(fs[..0]) == [];
    } else {
      FirstFrame(fs, tail, k);
      FramesThenTail(split, fs[1..], tail);
      FrameThenTokens(split, fs[0], PrintAll(fs[1..]) + tail, Messages(fs[1..][..k - 1]), Drain(split, PrintAll(fs[k..]) + tail));
    }
  }

  lemma FrameThenTokens(split: SplitFunc, f: Frame, rest: seq<byte>, ms: seq<seq<byte>>, d: Drained)
    requires InBounds(split) && ScansFrames(split) && WellFormed(f) && |Print(f) + rest| >= TOKEN_BUF_LEN
    requires Drain(split, rest) == Drained(ms + d.tokens, d.rest)
    ensures Drain(split, Print(f) + rest) == Drained([Message(f)] + ms + d.tokens, d.rest)
  {
    DrainFrame(split, f, rest);
    AppendAssociates([Message(f)], ms, d.tokens);
  }

  lemma FirstFrame(fs: seq<Frame>, tail: seq<byte>, k: nat)
    requires 1 <= k <= |fs|
    ensures PrintAll(fs) + tail == Print(fs[0]) + (PrintAll(fs[1..]) + tail)
    ensures fs[1..][k - 1..] == fs[k..]
    ensures Messages(fs[..k]) == [Message(fs[0])] + Messages(fs[1..][..k - 1])
  {
    AppendAssociates(Print(fs[0]), PrintAll(fs[1..]), tail);
    FirstMessage(fs, k);
  }

  lemma FirstMessage(fs: seq<Frame>, k: nat)
    requires 1 <= k <= |fs|
    ensures Messages(fs[..k]) == [Message(fs[0])] + Messages(fs[1..][..k - 1])
  {
    var ms, ns := Messages(fs[..k]), Messages(fs[1..][..k - 1]);
    forall i | 0 <= i < k
      ensures ms[i] == ([Message(fs[0])] + ns)[i]
    {
    }
  }

  lemma RoundTrip(split: SplitFunc, fs: seq<Frame>)
    requires BeastSplitter(split) && AllWellFormed(fs)
    ensures Drain(split, PrintAll(fs)) == Drained(Messages(fs[..Ready(fs, 0)]), PrintAll(fs[Ready(fs, 0)..]))
  {
    var k := Ready(fs, 0);
    LeftIsShort(fs, k);
    LeftUnread(split, fs[k..]);
    FramesAlone(split, fs, k, PrintAll(fs), PrintAll(fs[k..]));
  }

  lemma LeftIsShort(fs: seq<Frame>, k: nat)
    requires k == Ready(fs, 0)
    ensures |PrintAll(fs[k..])| < TOKEN_BUF_LEN
  {
    if k < |fs| {
      ReadyExact(fs, 0, k);
    }
  }

  lemma FramesAlone(split: SplitFunc, fs: seq<Frame>, k: nat, all: seq<byte>, left: seq<byte>)
    requires InBounds(split) && ScansFrames(split) && AllWellFormed(fs) && k == Ready(fs, 0)
    requires all == PrintAll(fs) && left == PrintAll(fs[k..]) && Drain(split, left) == Drained([], left)
    ensures Drain(split, all) == Drained(Messages(fs[..k]), left)
  {
    FramesThenTail(split, fs, []);
    assert all + [] == all && left + [] == left;
  }

  lemma LeftUnread(split: SplitFunc, left: seq<Frame>)
    requires BeastSplitter(split) && AllWellFormed(left) && |PrintAll(left)| < TOKEN_BUF_LEN
    ensures Drain(split, PrintAll(left)) == Drained([], PrintAll(left))
  {
    if |left| > 0 {
      DrainFrame(split, left[0], PrintAll(left[1..]));
    } else {
      assert split([]) == MORE;
    }
  }

  // --- resynchronisation --------------------------------------------------------------

  lemma DrainSkipsJunk(split: SplitFunc, junk: seq<byte>, s: seq<byte>)
    requires InBounds(split) && SkipsJunk(split) && ESC !in junk && (|s| > 0 ==> s[0] == ESC)
    ensures Drain(split, junk + s).tokens == Drain(split, s).tokens
  {
    if |s| > 0 {
      var a := split(s).advance;
      assert (junk + s)[|junk| + a..] == s[a..];
    } else {
      assert junk + s == junk;
      assert split(s) == MORE;
    }
  }

  lemma DrainSkipsPair(split: SplitFunc, s: seq<byte>)
    requires InBounds(split) && SkipsPairs(split)
    ensures Drain(split, [ESC, ESC] + s).tokens == if |s| + 2 < 11 then [] else Drain(split, s).tokens
  {
    assert ([ESC, ESC] + s)[2..] == s;
  }

  /** Starting among any escaped bytes, without splitting a pair, the splitter emits
      nothing for them and then exactly what it would have emitted had it started at the
      next frame. */
  lemma {:induction false} Resynchronises(split: SplitFunc, p: seq<byte>, fs: seq<Frame>)
    requires BeastSplitter(split) && AllWellFormed(fs)
    ensures Drain(split, Escape(p) + PrintAll(fs)).tokens == Drain(split, PrintAll(fs)).tokens
    decreases |p|
  {
    if ESC !in p {
      EscapeClean(p);
      DrainSkipsJunk(split, p, PrintAll(fs));
    } else {
      var junk, q := SplitAtEsc(p);
      var next := Escape(q) + PrintAll(fs);
      Regroup(junk, [ESC, ESC], Escape(q), PrintAll(fs));
      DrainSkipsJunk(split, junk, [ESC, ESC] + next);
      DrainSkipsPair(split, next);
      if |next| + 2 < 11 {
        TooShort(split, fs);
      } else {
        Resynchronises(split, q, fs);
      }
    }
  }

  lemma Regroup<T>(a: seq<T>, b: seq<T>, c: seq<T>, d: seq<T>)
    ensures (a + (b + c)) + d == a + (b + (c + d))
  {
  }

  lemma TooShort(split: SplitFunc, fs: seq<Frame>)
    requires BeastSplitter(split) && AllWellFormed(fs) && |PrintAll(fs)| < TOKEN_BUF_LEN
    ensures Drain(split, PrintAll(fs)).tokens == []
  {
    RoundTrip(split, fs);
    assert Messages(fs[..0]) == [];
  }

  lemma {:induction false} SplitAtEsc(p: seq<byte>) returns (junk: seq<byte>, q: seq<byte>)
    requires ESC in p
    ensures ESC !in junk && |q| < |p|
    ensures Escape(p) == junk + ([ESC, ESC] + Escape(q))
  {
    if p[0] == ESC {
      junk, q := [], p[1..];
    } else {
      assert p == [p[0]] + p[1..];
      junk, q := SplitAtEsc(p[1..]);
      junk := [p[0]] + junk;
    }
  }

  /** Any cut of a printed frame, after c of the bytes behind its leading 0x1A and not
      inside a pair, leaves such escaped bytes. */
  lemma CutFrame(f: Frame, c: nat)
    requires c <= |f.payload| + 1 && WellFormed(f)
    ensures var body := [f.kind] + f.payload;
            var cut := 1 + |Escape(body[..c])|;
            cut <= |Print(f)| && Print(f)[cut..] == Escape(body[c..])
  {
    var body := [f.kind] + f.payload;
    assert body[1..] == f.payload;
    assert Print(f) == [ESC] + Escape(body);
    assert body == body[..c] + body[c..];
    EscapeAppend(body[..c], body[c..]);
  }

  lemma ResumesAfterCut(split: SplitFunc, f: Frame, c: nat, fs: seq<Frame>)
    requires BeastSplitter(split) && AllWellFormed(fs) && WellFormed(f) && c <= |f.payload| + 1
    ensures var cut := 1 + |Escape(([f.kind] + f.payload)[..c])|;
            && cut <= |Print(f)|
            && Drain(split, Print(f)[cut..] + PrintAll(fs)).tokens == Messages(fs[..Ready(fs, 0)])
  {
    CutFrame(f, c);
    Resynchronises(split, ([f.kind] + f.payload)[c..], fs);
    RoundTrip(split, fs);
  }

  /** A cut that does split a pair emits a false frame whenever the doubled byte is
      followed in the payload by a message type and that message's worth of bytes. */
  lemma SplitPairFakesFrame(split: SplitFunc, g: Frame, more: seq<byte>, fs: seq<Frame>)
    requires InBounds(split) && ScansFrames(split) && WellFormed(g)
    requires |Print(g) + (Escape(more) + PrintAll(fs))| >= TOKEN_BUF_LEN
    ensures var payload := [ESC, g.kind] + g.payload + more;
            var d := Drain(split, Escape(payload)[1..] + PrintAll(fs));
            |d.tokens| > 0 && d.tokens[0] == Message(g)
  {
    var payload := [ESC, g.kind] + g.payload + more;
    var rest := Escape(more) + PrintAll(fs);
    PrintsLikeFrame(g, more);
    AppendAssociates(Print(g), Escape(more), PrintAll(fs));
    DrainFrame(split, g, rest);
  }

  lemma PrintsLikeFrame(g: Frame, more: seq<byte>)
    requires WellFormed(g)
    ensures Escape([ESC, g.kind] + g.payload + more)[1..] == Print(g) + Escape(more)
  {
    var payload := [ESC, g.kind] + g.payload + more;
    assert payload[1..] == [g.kind] + (g.payload + more);
    assert payload[1..][1..] == g.payload + more;
    EscapeAppend(g.payload, more);
  }
}
