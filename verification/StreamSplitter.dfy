/** A reader in the manner of bufio.Scanner: it calls a split function on the bytes it has
    buffered, drops what the function consumed and collects the tokens. The results here
    hold for every split function that keeps the stated laws. */
module StreamSplitter {
  import opened Basics

  newtype byte = x: int | 0 <= x < 256

  /** Bytes consumed and token produced by one call; no progress asks for more data. */
  datatype Scanned = Scanned(advance: nat, token: Option<seq<byte>>)

  const MORE := Scanned(0, None)

  type SplitFunc = seq<byte> -> Scanned

  /** Nothing beyond the buffer is consumed, and a token always consumes something. */
  ghost predicate InBounds(split: SplitFunc) {
    forall data :: split(data).advance <= |data| && (split(data).token.Some? ==> split(data).advance > 0)
  }

  /** Progress made on a buffer is not changed by bytes that arrive later. */
  ghost predicate Stable(split: SplitFunc) {
    forall data, ext :: split(data).advance > 0 ==> split(data + ext) == split(data)
  }

  function Emitted(token: Option<seq<byte>>): seq<seq<byte>> {
    if token.Some? then [token.value] else []
  }

  datatype Drained = Drained(tokens: seq<seq<byte>>, rest: seq<byte>)

  /** Call the split function until it makes no progress. */
  ghost function Drain(split: SplitFunc, data: seq<byte>): Drained
    requires InBounds(split)
    decreases |data|
  {
    var r := split(data);
    if r.advance == 0 then Drained([], data)
    else
      var d := Drain(split, data[r.advance..]);
      Drained(Emitted(r.token) + d.tokens, d.rest)
  }

  lemma AppendAssociates<T>(a: seq<T>, b: seq<T>, c: seq<T>)
    ensures a + (b + c) == (a + b) + c
  {
  }

  lemma {:induction false} DrainExtends(split: SplitFunc, data: seq<byte>, ext: seq<byte>)
    requires InBounds(split) && Stable(split)
    ensures var d := Drain(split, data);
            var e := Drain(split, d.rest + ext);
            Drain(split, data + ext) == Drained(d.tokens + e.tokens, e.rest)
    decreases |data|
  {
    var r := split(data);
    if r.advance > 0 {
      assert (data + ext)[r.advance..] == data[r.advance..] + ext;
      DrainExtends(split, data[r.advance..], ext);
      var d := Drain(split, data[r.advance..]);
      AppendAssociates(Emitted(r.token), d.tokens, Drain(split, d.rest + ext).tokens);
    }
  }

  /** A reader interleaves arriving chunks with calls of the splitter in any order. */
  datatype ReaderEvent = Arrive(chunk: seq<byte>) | Split

  datatype Reader = Reader(buffer: seq<byte>, tokens: seq<seq<byte>>)

  ghost function ReaderStep(split: SplitFunc, s: Reader, e: ReaderEvent): Reader
    requires InBounds(split)
  {
    match e
    case Arrive(chunk) => s.(buffer := s.buffer + chunk)
    case Split =>
      var r := split(s.buffer);
      Reader(s.buffer[r.advance..], s.tokens + Emitted(r.token))
  }

  ghost function ReaderRun(split: SplitFunc, es: seq<ReaderEvent>): Reader
    requires InBounds(split)
  {
    if |es| == 0 then Reader([], []) else ReaderStep(split, ReaderRun(split, es[..|es| - 1]), es[|es| - 1])
  }

  function Arrived(es: seq<ReaderEvent>): seq<byte> {
    if |es| == 0 then []
    else Arrived(es[..|es| - 1]) + (match es[|es| - 1] case Arrive(chunk) => chunk case Split => [])
  }

  /** Chunking independence: whatever the split of the stream into chunks and the
      schedule of calls, the tokens so far are those of a single pass over all bytes
      received, less what further calls on the present buffer would still emit. */
  lemma {:induction false} ChunkingIndependence(split: SplitFunc, es: seq<ReaderEvent>)
    requires InBounds(split) && Stable(split)
    ensures var s := ReaderRun(split, es);
            Drain(split, Arrived(es)) == Drained(s.tokens + Drain(split, s.buffer).tokens, Drain(split, s.buffer).rest)
  {
    if |es| > 0 {
      var before, last := es[..|es| - 1], es[|es| - 1];
      ChunkingIndependence(split, before);
      var s := ReaderRun(split, before);
      match last
      case Arrive(chunk) =>
        DrainExtends(split, Arrived(before), chunk);
        DrainExtends(split, s.buffer, chunk);
        var d := Drain(split, s.buffer);
        AppendAssociates(s.tokens, d.tokens, Drain(split, d.rest + chunk).tokens);
      case Split =>
        var r := split(s.buffer);
        assert Arrived(es) == Arrived(before);
        if r.advance == 0 {
          assert s.buffer[r.advance..] == s.buffer;
        } else {
          AppendAssociates(s.tokens, Emitted(r.token), Drain(split, s.buffer[r.advance..]).tokens);
        }
    }
  }
}
