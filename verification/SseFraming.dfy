/**
 Re-cutting a chunked byte stream into server-sent-event frames. A frame is what precedes a blank
 line; what follows the last one waits in a carry buffer for the next chunk.
 */
module SseFraming {
  import opened Json

  type byte = b: int | 0 <= b < 256

  const NEWLINE: byte := 10

  type Bytes = seq<byte>

  predicate TerminatorAt(buf: Bytes, i: nat) {
    i + 1 < |buf| && buf[i] == NEWLINE && buf[i + 1] == NEWLINE
  }

  ghost predicate Unterminated(buf: Bytes) {
    forall i: nat :: !TerminatorAt(buf, i)
  }

  /** The offset of the first blank-line terminator. */
  function FindFrameEnd(buf: Bytes): (r: Option<nat>)
    ensures match r
            case None => Unterminated(buf)
            case Some(i) => TerminatorAt(buf, i) && forall j: nat | j < i :: !TerminatorAt(buf, j)
  {
    FindFrameEndFrom(buf, 0)
  }

  /** In bytes: where two line feeds first stand together, if they do. */
  lemma FrameEndInBytes(buf: Bytes)
    ensures match FindFrameEnd(buf)
            case None => forall i | 0 <= i < |buf| - 1 :: !(buf[i] == 10 && buf[i + 1] == 10)
            case Some(i) =>
              && i + 1 < |buf| && buf[i] == 10 && buf[i + 1] == 10
              && forall j | 0 <= j < i :: !(buf[j] == 10 && buf[j + 1] == 10)
  {
    forall j: nat | j + 1 < |buf| ensures TerminatorAt(buf, j) <==> buf[j] == 10 && buf[j + 1] == 10 {
    }
  }

  function FindFrameEndFrom(buf: Bytes, from: nat): (r: Option<nat>)
    requires forall j: nat | j < from :: !TerminatorAt(buf, j)
    ensures match r
            case None => Unterminated(buf)
            case Some(i) => TerminatorAt(buf, i) && forall j: nat | j < i :: !TerminatorAt(buf, j)
    decreases |buf| - from
  {
    if from + 1 >= |buf| then None
    else if TerminatorAt(buf, from) then Some(from)
    else FindFrameEndFrom(buf, from + 1)
  }

  /** The complete frames of a stream, terminators removed. */
  function Frames(s: Bytes): seq<Bytes> {
    match FindFrameEnd(s)
    case None => []
    case Some(i) => [s[..i]] + Frames(s[i + 2..])
  }

  /** What follows the last terminator. */
  function Rest(s: Bytes): Bytes {
    match FindFrameEnd(s)
    case None => s
    case Some(i) => Rest(s[i + 2..])
  }

  // ---- Framing is the inverse of terminating and joining ----

  const BLANK_LINE: Bytes := [NEWLINE, NEWLINE]

  ghost function Joined(frames: seq<Bytes>, rest: Bytes): Bytes {
    if frames == [] then rest else frames[0] + BLANK_LINE + Joined(frames[1..], rest)
  }

  /** A frame whose terminator is the first one after it. */
  ghost predicate CleanFrame(f: Bytes) {
    Unterminated(f + [NEWLINE])
  }

  lemma FirstTerminator(f: Bytes, tail: Bytes)
    requires CleanFrame(f)
    ensures FindFrameEnd(f + BLANK_LINE + tail) == Some(|f|)
  {
    var s := f + BLANK_LINE + tail;
    assert TerminatorAt(s, |f|);
    forall j: nat | j < |f| ensures !TerminatorAt(s, j) {
      assert !TerminatorAt(f + [NEWLINE], j);
    }
  }

  lemma FrameIsClean(s: Bytes)
    requires FindFrameEnd(s).Some?
    ensures var i := FindFrameEnd(s).value;
            CleanFrame(s[..i]) && s == s[..i] + BLANK_LINE + s[i + 2..]
  {
    var i := FindFrameEnd(s).value;
    forall j: nat ensures !TerminatorAt(s[..i] + [NEWLINE], j) {
      if j + 1 < i + 1 {
        assert !TerminatorAt(s, j);
      }
    }
  }

  lemma {:induction false} FramingSplitsTheStream(s: Bytes)
    ensures Joined(Frames(s), Rest(s)) == s
    ensures Unterminated(Rest(s)) && forall f | f in Frames(s) :: CleanFrame(f)
    decreases |s|
  {
    var end := FindFrameEnd(s);
    if end.Some? {
      FrameIsClean(s);
      FramingSplitsTheStream(s[end.value + 2..]);
      assert Frames(s)[1..] == Frames(s[end.value + 2..]);
    }
  }

  lemma {:induction false} FramingIsUnique(frames: seq<Bytes>, rest: Bytes)
    requires Unterminated(rest) && forall f | f in frames :: CleanFrame(f)
    ensures Frames(Joined(frames, rest)) == frames && Rest(Joined(frames, rest)) == rest
  {
    if frames == [] {
    } else {
      var tail := Joined(frames[1..], rest);
      FirstTerminator(frames[0], tail);
      FramingIsUnique(frames[1..], rest);
      var s := Joined(frames, rest);
      assert s[|frames[0]| + 2..] == tail && s[..|frames[0]|] == frames[0];
      assert frames == [frames[0]] + frames[1..];
    }
  }

  /** Framing a longer stream continues from what the shorter one left over. */
  lemma {:induction false} FramingContinues(a: Bytes, b: Bytes)
    ensures Frames(a + b) == Frames(a) + Frames(Rest(a) + b)
    ensures Rest(a + b) == Rest(Rest(a) + b)
    decreases |a|
  {
    var end := FindFrameEnd(a);
    if end.Some? {
      var i := end.value;
      FrameIsClean(a);
      assert a + b == a[..i] + BLANK_LINE + (a[i + 2..] + b);
      FirstTerminator(a[..i], a[i + 2..] + b);
      assert (a + b)[..i] == a[..i] && (a + b)[i + 2..] == a[i + 2..] + b;
      FramingContinues(a[i + 2..], b);
    }
  }

  // ---- The stream filter ----

  /** How a frame is decoded and rewritten; the JSON edit inside it stays abstract. */
  datatype Rewriter = Rewriter(lossy: Bytes -> Bytes, blank: Bytes -> bool, rewrite: Bytes -> Bytes)

  datatype Item = Chunk(bytes: Bytes) | Failed(error: int)

  /** The rewrite of the non-blank frames, in order. */
  function Rendered(rw: Rewriter, frames: seq<Bytes>): seq<Item> {
    if frames == [] then []
    else
      var text := rw.lossy(frames[0]);
      (if rw.blank(text) then [] else [Chunk(rw.rewrite(text))]) + Rendered(rw, frames[1..])
  }

  lemma {:induction false} RenderedDistributes(rw: Rewriter, a: seq<Bytes>, b: seq<Bytes>)
    ensures Rendered(rw, a + b) == Rendered(rw, a) + Rendered(rw, b)
  {
    if a == [] {
      assert a + b == b;
    } else {
      assert (a + b)[1..] == a[1..] + b;
      RenderedDistributes(rw, a[1..], b);
    }
  }

  /** How many of the frames are not blank. */
  function NonBlankCount(rw: Rewriter, frames: seq<Bytes>): nat {
    if frames == [] then 0
    else NonBlankCount(rw, frames[..|frames| - 1]) + if rw.blank(rw.lossy(frames[|frames| - 1])) then 0 else 1
  }

  lemma {:induction false} RenderedLength(rw: Rewriter, frames: seq<Bytes>)
    ensures |Rendered(rw, frames)| == NonBlankCount(rw, frames)
  {
    if frames != [] {
      var front, f := frames[..|frames| - 1], frames[|frames| - 1];
      assert frames == front + [f];
      RenderedLength(rw, front);
      RenderedExtends(rw, front, f);
    }
  }

  /** Every frame that is not blank is rewritten, once, behind those before it; blank ones leave nothing. */
  lemma RenderedAt(rw: Rewriter, frames: seq<Bytes>, k: nat)
    requires k < |frames|
    ensures |Rendered(rw, frames)| == NonBlankCount(rw, frames)
    ensures var at := NonBlankCount(rw, frames[..k]);
            !rw.blank(rw.lossy(frames[k])) ==>
              at < |Rendered(rw, frames)| && Rendered(rw, frames)[at] == Chunk(rw.rewrite(rw.lossy(frames[k])))
  {
    RenderedLength(rw, frames);
    RenderedLength(rw, frames[..k]);
    assert frames == frames[..k] + [frames[k]] + frames[k + 1..];
    RenderedDistributes(rw, frames[..k] + [frames[k]], frames[k + 1..]);
    RenderedExtends(rw, frames[..k], frames[k]);
  }

  class StreamFilter {
    const rw: Rewriter
    var buf: Bytes
    ghost var received: Bytes

    /** The carry buffer is the unfinished tail of everything received, never a complete frame. */
    ghost predicate Valid()
      reads this
    {
      buf == Rest(received) && Unterminated(buf)
    }

    constructor (rw: Rewriter)
      ensures Valid() && this.rw == rw && received == [] && buf == []
    {
      this.rw, buf, received := rw, [], [];
    }

    method OnItem(item: Item) returns (emit: seq<Item>)
      requires Valid()
      modifies this
      ensures Valid()
      ensures emit == Emitted(rw, old(buf), item) && buf == Carried(old(buf), item)
      ensures received == old(received) + Payload(item)
      ensures item.Failed? ==> emit == [item] && received == old(received)
      ensures item.Chunk? ==> Rendered(rw, Frames(received)) == Rendered(rw, old(Frames(received))) + emit
    {
      ghost var before, carried := received, buf;
      received := received + Payload(item);
      FramingSplitsTheStream(received);
      FramingContinues(before, Payload(item));
      match item {
        case Failed(e) =>
          assert received == before;
          emit := [Failed(e)];
        case Chunk(bytes) =>
          RenderedDistributes(rw, Frames(before), Frames(carried + bytes));
          buf := buf + bytes;
          emit := DrainFrames();
      }
    }

    /** Take every complete frame out of the carry buffer and rewrite the non-blank ones. */
    method DrainFrames() returns (emit: seq<Item>)
      modifies this`buf
      ensures emit == Rendered(rw, Frames(old(buf))) && buf == Rest(old(buf))
    {
      emit := [];
      ghost var all, done: seq<Bytes> := buf, [];
      var end := FindFrameEnd(buf);
      DrainStarts(rw, all);
      while end.Some?
        invariant end == FindFrameEnd(buf)
        invariant Drained(rw, all, done, buf, emit)
        decreases |buf|
      {
        var frameBytes, carry := buf[..end.value], buf[end.value + 2..];
        var frame := rw.lossy(frameBytes);
        DrainOne(rw, all, done, buf, emit);
        done := done + [frameBytes];
        buf := carry;
        end := FindFrameEnd(carry);
        if rw.blank(frame) {
          continue;
        }
        emit := emit + [Chunk(rw.rewrite(frame))];
      }
      DrainEnds(rw, all, done, buf, emit);
    }
  }

  /** `done` are the first frames of `all`, `buf` is what follows them, and `emit` is what became of them. */
  ghost predicate Drained(rw: Rewriter, all: Bytes, done: seq<Bytes>, buf: Bytes, emit: seq<Item>) {
    Frames(all) == done + Frames(buf) && Rest(all) == Rest(buf) && emit == Rendered(rw, done)
  }

  lemma DrainStarts(rw: Rewriter, all: Bytes)
    ensures Drained(rw, all, [], all, [])
  {
    assert [] + Frames(all) == Frames(all);
  }

  lemma DrainEnds(rw: Rewriter, all: Bytes, done: seq<Bytes>, buf: Bytes, emit: seq<Item>)
    requires Drained(rw, all, done, buf, emit) && FindFrameEnd(buf).None?
    ensures emit == Rendered(rw, Frames(all)) && buf == Rest(all)
  {
    assert done + [] == done;
  }

  lemma DrainOne(rw: Rewriter, all: Bytes, done: seq<Bytes>, buf: Bytes, emit: seq<Item>)
    requires Drained(rw, all, done, buf, emit) && FindFrameEnd(buf).Some?
    ensures var i := FindFrameEnd(buf).value;
            var frame := rw.lossy(buf[..i]);
            Drained(rw, all, done + [buf[..i]], buf[i + 2..],
                    if rw.blank(frame) then emit else emit + [Chunk(rw.rewrite(frame))])
  {
    RenderedExtends(rw, done, buf[..FindFrameEnd(buf).value]);
  }

  lemma RenderedExtends(rw: Rewriter, frames: seq<Bytes>, f: Bytes)
    ensures Rendered(rw, frames + [f])
            == if rw.blank(rw.lossy(f)) then Rendered(rw, frames)
               else Rendered(rw, frames) + [Chunk(rw.rewrite(rw.lossy(f)))]
  {
    RenderedDistributes(rw, frames, [f]);
    assert Rendered(rw, [f]) == if rw.blank(rw.lossy(f)) then [] else [Chunk(rw.rewrite(rw.lossy(f)))];
  }

  function Payload(item: Item): Bytes {
    if item.Chunk? then item.bytes else []
  }

  /** What one item makes the filter emit, given its carry buffer. */
  function Emitted(rw: Rewriter, buf: Bytes, item: Item): seq<Item> {
    if item.Failed? then [item] else Rendered(rw, Frames(buf + item.bytes))
  }

  function Carried(buf: Bytes, item: Item): Bytes {
    if item.Failed? then buf else Rest(buf + item.bytes)
  }

  /** The whole output for a run of items. */
  function Run(rw: Rewriter, buf: Bytes, items: seq<Item>): seq<Item>
    decreases |items|
  {
    if items == [] then []
    else Emitted(rw, buf, items[0]) + Run(rw, Carried(buf, items[0]), items[1..])
  }

  function Received(items: seq<Item>): Bytes {
    if items == [] then [] else Payload(items[0]) + Received(items[1..])
  }

  function Chunks(items: seq<Item>): seq<Item> {
    if items == [] then []
    else
      var later := Chunks(items[1..]);
      if items[0].Chunk? then [items[0]] + later else later
  }

  function Failures(items: seq<Item>): seq<Item> {
    if items == [] then []
    else
      var later := Failures(items[1..]);
      if items[0].Failed? then [items[0]] + later else later
  }

  lemma {:induction false} ChunksDistribute(a: seq<Item>, b: seq<Item>)
    ensures Chunks(a + b) == Chunks(a) + Chunks(b)
  {
    if a == [] {
      assert a + b == b;
    } else {
      assert (a + b)[1..] == a[1..] + b;
      ChunksDistribute(a[1..], b);
    }
  }

  lemma {:induction false} FailuresDistribute(a: seq<Item>, b: seq<Item>)
    ensures Failures(a + b) == Failures(a) + Failures(b)
  {
    if a == [] {
      assert a + b == b;
    } else {
      assert (a + b)[1..] == a[1..] + b;
      FailuresDistribute(a[1..], b);
    }
  }

  lemma {:induction false} RenderedIsAllChunks(rw: Rewriter, frames: seq<Bytes>)
    ensures Chunks(Rendered(rw, frames)) == Rendered(rw, frames) && Failures(Rendered(rw, frames)) == []
  {
    if frames == [] {
    } else {
      var text := rw.lossy(frames[0]);
      var head: seq<Item> := if rw.blank(text) then [] else [Chunk(rw.rewrite(text))];
      RenderedIsAllChunks(rw, frames[1..]);
      ChunksDistribute(head, Rendered(rw, frames[1..]));
      FailuresDistribute(head, Rendered(rw, frames[1..]));
      assert Chunks(head) == head && Failures(head) == [];
    }
  }

  /**
   However the stream is cut, and wherever errors fall, the output carries the rewrite of exactly
   the frames of the whole stream, in order, and passes every error through in order.
   */
  lemma OutputIgnoresChunking(rw: Rewriter, items: seq<Item>)
    ensures Chunks(Run(rw, [], items)) == Rendered(rw, Frames(Received(items)))
    ensures Failures(Run(rw, [], items)) == Failures(items)
  {
    assert [] + Received(items) == Received(items);
    ChunksOfRun(rw, [], items);
    FailuresOfRun(rw, [], items);
  }

  /** The output carries exactly the rewritten frames of the buffer and everything received after it. */
  ghost predicate RendersAll(rw: Rewriter, buf: Bytes, items: seq<Item>) {
    Chunks(Run(rw, buf, items)) == Rendered(rw, Frames(buf + Received(items)))
  }

  lemma {:induction false} ChunksOfRun(rw: Rewriter, buf: Bytes, items: seq<Item>)
    requires Unterminated(buf)
    ensures RendersAll(rw, buf, items)
    decreases |items|
  {
    if items == [] {
      assert buf + [] == buf;
    } else {
      var carry := CarryStaysUnterminated(buf, items[0]);
      ChunksOfRun(rw, carry, items[1..]);
      RendersOneMore(rw, buf, items);
    }
  }

  lemma RendersOneMore(rw: Rewriter, buf: Bytes, items: seq<Item>)
    requires items != [] && Unterminated(buf) && RendersAll(rw, Carried(buf, items[0]), items[1..])
    ensures RendersAll(rw, buf, items)
  {
    var item, carry, later := items[0], Carried(buf, items[0]), Received(items[1..]);
    ReceivedFirst(buf, items);
    ChunksOfFirst(rw, buf, items);
    EmittedChunks(rw, buf, item, later);
    JoinedAlike(Chunks(Run(rw, buf, items)), Chunks(Emitted(rw, buf, item)), Chunks(Run(rw, carry, items[1..])),
                Rendered(rw, Frames(carry + later)), Rendered(rw, Frames(buf + Payload(item) + later)));
  }

  lemma JoinedAlike(whole: seq<Item>, head: seq<Item>, tail: seq<Item>, same: seq<Item>, joined: seq<Item>)
    requires whole == head + tail && tail == same && head + same == joined
    ensures whole == joined
  {
  }

  lemma ReceivedFirst(buf: Bytes, items: seq<Item>)
    requires items != []
    ensures buf + Received(items) == buf + Payload(items[0]) + Received(items[1..])
  {
  }

  lemma ChunksOfFirst(rw: Rewriter, buf: Bytes, items: seq<Item>)
    requires items != []
    ensures Chunks(Run(rw, buf, items))
            == Chunks(Emitted(rw, buf, items[0])) + Chunks(Run(rw, Carried(buf, items[0]), items[1..]))
  {
    ChunksDistribute(Emitted(rw, buf, items[0]), Run(rw, Carried(buf, items[0]), items[1..]));
  }

  lemma CarryStaysUnterminated(buf: Bytes, item: Item) returns (carry: Bytes)
    requires Unterminated(buf)
    ensures carry == Carried(buf, item) && Unterminated(carry)
  {
    carry := Carried(buf, item);
    FramingSplitsTheStream(buf + Payload(item));
  }

  lemma EmittedChunks(rw: Rewriter, buf: Bytes, item: Item, later: Bytes)
    requires Unterminated(buf)
    ensures Chunks(Emitted(rw, buf, item)) + Rendered(rw, Frames(Carried(buf, item) + later))
            == Rendered(rw, Frames(buf + Payload(item) + later))
  {
    if item.Chunk? {
      var all := buf + item.bytes;
      FramingContinues(all, later);
      RenderedDistributes(rw, Frames(all), Frames(Rest(all) + later));
      RenderedIsAllChunks(rw, Frames(all));
    } else {
      assert buf + Payload(item) == buf;
      assert Chunks([item]) == [];
    }
  }

  lemma {:induction false} FailuresOfRun(rw: Rewriter, buf: Bytes, items: seq<Item>)
    ensures Failures(Run(rw, buf, items)) == Failures(items)
    decreases |items|
  {
    if items != [] {
      var item, later := items[0], items[1..];
      FailuresOfRun(rw, Carried(buf, item), later);
      FailuresDistribute(Emitted(rw, buf, item), Run(rw, Carried(buf, item), later));
      if item.Chunk? {
        RenderedIsAllChunks(rw, Frames(buf + item.bytes));
      } else {
        assert Failures([item]) == [item];
      }
    }
  }

  lemma SameStreamSameOutput(rw: Rewriter, a: seq<Item>, b: seq<Item>)
    requires Received(a) == Received(b)
    ensures Chunks(Run(rw, [], a)) == Chunks(Run(rw, [], b))
  {
    OutputIgnoresChunking(rw, a);
    OutputIgnoresChunking(rw, b);
  }

  // ---- What is never emitted ----

  /** How many newlines end the stream. */
  function TrailingNewlines(s: Bytes): (n: nat)
    ensures n <= |s|
  {
    if s == [] || s[|s| - 1] != NEWLINE then 0 else 1 + TrailingNewlines(s[..|s| - 1])
  }

  /** It is empty, or ends in an even number of newlines, at least two. */
  predicate EndsOnBlankLine(s: Bytes) {
    s == [] || (TrailingNewlines(s) > 0 && TrailingNewlines(s) % 2 == 0)
  }

  /** A stream is cut up to its last byte exactly when it ends on a blank line; else its end is never emitted. */
  lemma {:induction false} NothingLostIff(s: Bytes)
    ensures Rest(s) == [] <==> EndsOnBlankLine(s)
    decreases |s|
  {
    var end := FindFrameEnd(s);
    if end.Some? {
      FrameIsClean(s);
      NothingLostIff(s[end.value + 2..]);
      EndsOnBlankLineAfterFrame(s[..end.value], s[end.value + 2..]);
    } else {
      UnterminatedEnds(s);
    }
  }

  lemma EndsOnBlankLineAfterFrame(f: Bytes, tail: Bytes)
    requires CleanFrame(f)
    ensures EndsOnBlankLine(f + BLANK_LINE + tail) <==> EndsOnBlankLine(tail)
  {
    TrailingAfterFrame(f, tail);
  }

  lemma UnterminatedEnds(s: Bytes)
    requires Unterminated(s)
    ensures TrailingNewlines(s) <= 1
  {
    if |s| >= 2 {
      assert !TerminatorAt(s, |s| - 2);
      assert s[..|s| - 1][|s| - 2] == s[|s| - 2];
    }
  }

  lemma {:induction false} TrailingAfterFrame(f: Bytes, tail: Bytes)
    requires CleanFrame(f)
    ensures TrailingNewlines(f + BLANK_LINE + tail)
            == TrailingNewlines(tail) + if TrailingNewlines(tail) == |tail| then 2 else 0
    decreases |tail|
  {
    var s := f + BLANK_LINE + tail;
    if tail == [] {
      assert s == f + BLANK_LINE && s[..|s| - 1] == f + [NEWLINE] && (f + [NEWLINE])[..|f|] == f;
      assert f != [] ==> !TerminatorAt(f + [NEWLINE], |f| - 1);
      assert TrailingNewlines(f) == 0;
      assert TrailingNewlines(f + [NEWLINE]) == 1;
    } else {
      assert s[..|s| - 1] == f + BLANK_LINE + tail[..|tail| - 1] && s[|s| - 1] == tail[|tail| - 1];
      TrailingAfterFrame(f, tail[..|tail| - 1]);
    }
  }

  /** One unterminated line: it arrives whole, and nothing comes out. */
  lemma TrailingFragmentIsLost(rw: Rewriter, text: Bytes)
    requires Unterminated(text)
    ensures Run(rw, [], [Chunk(text)]) == []
  {
    assert [] + text == text;
  }
}
