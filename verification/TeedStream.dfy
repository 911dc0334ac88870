/**
 A byte stream teed to a usage parser: forwarded unchanged, watched for idleness, and finalised
 exactly once, by end of stream, idle timeout or drop. Times are milliseconds on one clock.
 */
module TeedStream {
  import opened Json

  type Chunk = seq<int>

  datatype Upstream = ChunkReady(chunk: Chunk) | FaultReady(error: int) | Ended | NotReady

  /** One poll: the clock when the deadline is checked, the clock when it is reset, the upstream's answer. */
  datatype Poll = Poll(now: nat, later: nat, upstream: Upstream)

  datatype Output = Forwarded(chunk: Chunk) | Faulted(error: int) | Finished | Pending

  /** One call of the finish callback: what the parser had been fed, and whether the end was normal. */
  datatype FinishCall = FinishCall(fed: seq<Chunk>, normal: bool)

  /** `fed` is the parser's input while the stream still owns the parser. */
  datatype State = State(
    fed: Option<seq<Chunk>>, onFinish: bool, finishedNormally: bool, deadline: nat, calls: seq<FinishCall>)
  {
    function Fire(normal: bool): State {
      var made := if fed.Some? && onFinish then [FinishCall(fed.value, normal)] else [];
      this.(fed := None, onFinish := false, calls := calls + made)
    }
  }

  class TeedStream {
    var parser: Option<seq<Chunk>>
    var onFinish: bool
    var finishedNormally: bool
    const idleTimeout: nat
    var deadline: nat
    ghost var calls: seq<FinishCall>

    ghost function View(): State
      reads this
    {
      State(parser, onFinish, finishedNormally, deadline, calls)
    }

    constructor (idleTimeout: nat, now: nat)
      ensures View() == Opened(idleTimeout, now) && this.idleTimeout == idleTimeout
    {
      parser, onFinish, finishedNormally := Some([]), true, false;
      this.idleTimeout, deadline := idleTimeout, now + idleTimeout;
      calls := [];
    }

    method FireFinish(normal: bool)
      modifies this
      ensures View() == old(View()).Fire(normal)
    {
      var taken, callback := parser, onFinish;
      parser, onFinish := None, false;
      if taken.Some? && callback {
        calls := calls + [FinishCall(taken.value, normal)];
      } else {
        assert calls + [] == calls;
      }
    }

    method PollNext(now: nat, later: nat, upstream: Upstream) returns (out: Output)
      modifies this
      ensures (View(), out) == Polled(old(View()), idleTimeout, Poll(now, later, upstream))
    {
      if now >= deadline {
        FireFinish(false);
        return Finished;
      }
      match upstream {
        case ChunkReady(chunk) =>
          deadline := later + idleTimeout;
          if parser.Some? {
            parser := Some(parser.value + [chunk]);
          }
          return Forwarded(chunk);
        case FaultReady(e) =>
          deadline := later + idleTimeout;
          return Faulted(e);
        case Ended =>
          finishedNormally := true;
          FireFinish(true);
          return Finished;
        case NotReady =>
          return Pending;
      }
    }

    method Drop()
      modifies this
      ensures View() == Dropped(old(View()))
    {
      if !finishedNormally {
        FireFinish(false);
      }
    }
  }

  function Opened(idleTimeout: nat, now: nat): State {
    State(Some([]), true, false, now + idleTimeout, [])
  }

  function Polled(s: State, idleTimeout: nat, p: Poll): (State, Output) {
    if p.now >= s.deadline then (s.Fire(false), Finished)
    else match p.upstream
         case ChunkReady(chunk) =>
           (s.(deadline := p.later + idleTimeout, fed := if s.fed.Some? then Some(s.fed.value + [chunk]) else None),
            Forwarded(chunk))
         case FaultReady(e) => (s.(deadline := p.later + idleTimeout), Faulted(e))
         case Ended => (s.(finishedNormally := true).Fire(true), Finished)
         case NotReady => (s, Pending)
  }

  function Dropped(s: State): State {
    if s.finishedNormally then s else s.Fire(false)
  }

  // ---- Runs ----

  datatype Setup = Setup(idleTimeout: nat, openedAt: nat)

  function After(u: Setup, polls: seq<Poll>): State {
    if polls == [] then Opened(u.idleTimeout, u.openedAt)
    else Polled(After(u, polls[..|polls| - 1]), u.idleTimeout, polls[|polls| - 1]).0
  }

  function OutputAt(u: Setup, polls: seq<Poll>, k: nat): Output
    requires k < |polls|
  {
    Polled(After(u, polls[..k]), u.idleTimeout, polls[k]).1
  }

  predicate TimesOutAt(u: Setup, polls: seq<Poll>, k: nat)
    requires k < |polls|
  {
    polls[k].now >= After(u, polls[..k]).deadline
  }

  predicate EndsAt(u: Setup, polls: seq<Poll>, k: nat)
    requires k < |polls|
  {
    !TimesOutAt(u, polls, k) && polls[k].upstream == Ended
  }

  /** The first poll that ends the stream, by timeout or end of stream; the drop comes after all polls. */
  function FirstEnd(u: Setup, polls: seq<Poll>): (t: nat)
    ensures t <= |polls|
  {
    if polls == [] then 0
    else
      var t := FirstEnd(u, polls[..|polls| - 1]);
      if t < |polls| - 1 || TimesOutAt(u, polls, |polls| - 1) || EndsAt(u, polls, |polls| - 1) then t else |polls|
  }

  lemma {:induction false} FirstEndIsFirst(u: Setup, polls: seq<Poll>)
    ensures var t := FirstEnd(u, polls);
            && (t < |polls| ==> TimesOutAt(u, polls, t) || EndsAt(u, polls, t))
            && forall k | 0 <= k < t :: !TimesOutAt(u, polls, k) && !EndsAt(u, polls, k)
  {
    if polls != [] {
      var front := polls[..|polls| - 1];
      FirstEndIsFirst(u, front);
      forall k | 0 <= k < |front|
        ensures TimesOutAt(u, front, k) == TimesOutAt(u, polls, k) && EndsAt(u, front, k) == EndsAt(u, polls, k)
      {
        assert front[..k] == polls[..k];
      }
    }
  }

  /** The chunks the first `n` polls forwarded, in order. */
  function ForwardedBy(u: Setup, polls: seq<Poll>, n: nat): seq<Chunk>
    requires n <= |polls|
  {
    if n == 0 then []
    else
      var out := OutputAt(u, polls, n - 1);
      ForwardedBy(u, polls, n - 1) + if out.Forwarded? then [out.chunk] else []
  }

  lemma {:induction false} ForwardedByPrefix(u: Setup, polls: seq<Poll>, m: nat, n: nat)
    requires n <= m <= |polls|
    ensures ForwardedBy(u, polls[..m], n) == ForwardedBy(u, polls, n)
  {
    if n > 0 {
      assert polls[..m][..n - 1] == polls[..n - 1];
      ForwardedByPrefix(u, polls, m, n - 1);
    }
  }

  /** The stream still owns the parser, fed with `chunks`, and has called nobody. */
  ghost predicate Streaming(s: State, chunks: seq<Chunk>) {
    s.fed == Some(chunks) && s.onFinish && !s.finishedNormally && s.calls == []
  }

  ghost predicate Called(s: State, call: FinishCall) {
    s.fed == None && s.calls == [call]
  }

  /** A poll of a stream that has ended calls nobody; a poll of a running one feeds the parser or ends it. */
  lemma PollMoves(s: State, idleTimeout: nat, p: Poll, chunks: seq<Chunk>, call: FinishCall)
    ensures var (next, out) := Polled(s, idleTimeout, p);
            && (Called(s, call) ==> Called(next, call))
            && (Streaming(s, chunks) ==>
                  if p.now >= s.deadline || p.upstream == Ended
                  then Called(next, FinishCall(chunks, p.now < s.deadline))
                  else Streaming(next, chunks + if out.Forwarded? then [out.chunk] else []))
  {
    assert chunks + [] == chunks && s.calls + [] == s.calls;
  }

  /** Before the first end the parser holds every forwarded chunk; from then on the one call is made. */
  lemma {:induction false} StateOfRun(u: Setup, polls: seq<Poll>)
    ensures var s, t := After(u, polls), FirstEnd(u, polls);
            if t == |polls| then Streaming(s, ForwardedBy(u, polls, t))
            else Called(s, FinishCall(ForwardedBy(u, polls, t), EndsAt(u, polls, t)))
  {
    if polls != [] {
      var front := polls[..|polls| - 1];
      var t := FirstEnd(u, front);
      StateOfRun(u, front);
      ForwardedByPrefix(u, polls, |front|, t);
      var call := FinishCall(ForwardedBy(u, polls, t), t < |front| && EndsAt(u, front, t));
      PollMoves(After(u, front), u.idleTimeout, polls[|front|], call.fed, call);
      if t < |front| {
        EndsAtPrefix(u, polls, t);
      }
    }
  }

  lemma EndsAtPrefix(u: Setup, polls: seq<Poll>, k: nat)
    requires k < |polls| - 1
    ensures EndsAt(u, polls[..|polls| - 1], k) == EndsAt(u, polls, k)
  {
    assert polls[..|polls| - 1][..k] == polls[..k];
  }

  /**
   Every run of polls ended by a drop calls back exactly once, normally iff the first end was end of
   stream, with exactly the chunks forwarded before it.
   */
  lemma FinishedExactlyOnce(u: Setup, polls: seq<Poll>)
    ensures var t := FirstEnd(u, polls);
            Dropped(After(u, polls)).calls
            == [FinishCall(ForwardedBy(u, polls, t), t < |polls| && EndsAt(u, polls, t))]
  {
    StateOfRun(u, polls);
  }

  ghost predicate ClockForward(polls: seq<Poll>) {
    forall i, j | 0 <= i < j < |polls| :: polls[i].now <= polls[j].now
  }

  lemma {:induction false} DeadlineIsOver(u: Setup, polls: seq<Poll>, i: nat, k: nat)
    requires ClockForward(polls) && i <= k < |polls| && TimesOutAt(u, polls, i)
    ensures TimesOutAt(u, polls, k) && After(u, polls[..k]).deadline == After(u, polls[..i]).deadline
  {
    if i < k {
      DeadlineIsOver(u, polls, i, k - 1);
      assert polls[..k][..k - 1] == polls[..k - 1];
    }
  }

  /** Once the stream has idled out, nothing more is forwarded, whatever the upstream still offers. */
  lemma NothingAfterTimeout(u: Setup, polls: seq<Poll>, i: nat, k: nat)
    requires ClockForward(polls) && i <= k < |polls| && TimesOutAt(u, polls, i)
    ensures OutputAt(u, polls, k) == Finished
  {
    DeadlineIsOver(u, polls, i, k);
  }

  /** The chunks upstream delivers in the first `n` polls. */
  function Delivered(polls: seq<Poll>, n: nat): seq<Chunk>
    requires n <= |polls|
  {
    if n == 0 then []
    else
      var answer := polls[n - 1].upstream;
      Delivered(polls, n - 1) + if answer.ChunkReady? then [answer.chunk] else []
  }

  function Passed(answer: Upstream): Output {
    match answer
    case ChunkReady(c) => Forwarded(c)
    case FaultReady(e) => Faulted(e)
    case Ended => Finished
    case NotReady => Pending
  }

  /**
   The client sees upstream's own stream: until the first end every answer is passed on in its place,
   faults included, no chunk is dropped, changed or reordered, and the parser is fed the same chunks.
   */
  lemma ForwardsUnchanged(u: Setup, polls: seq<Poll>, n: nat)
    requires n <= FirstEnd(u, polls)
    ensures forall k | 0 <= k < n :: OutputAt(u, polls, k) == Passed(polls[k].upstream)
    ensures ForwardedBy(u, polls, n) == Delivered(polls, n)
    ensures Streaming(After(u, polls[..n]), Delivered(polls, n))
  {
    FirstEndIsFirst(u, polls);
    ForwardsSoFar(u, polls, n);
    forall k | 0 <= k < n ensures OutputAt(u, polls, k) == Passed(polls[k].upstream) {
      assert !TimesOutAt(u, polls, k);
      PassesOn(After(u, polls[..k]), u.idleTimeout, polls[k]);
    }
  }

  lemma {:induction false} ForwardsSoFar(u: Setup, polls: seq<Poll>, n: nat)
    requires n <= |polls| && forall k | 0 <= k < n :: !TimesOutAt(u, polls, k) && !EndsAt(u, polls, k)
    ensures ForwardedBy(u, polls, n) == Delivered(polls, n)
    ensures Streaming(After(u, polls[..n]), Delivered(polls, n))
  {
    if n == 0 {
      assert polls[..0] == [];
    } else {
      ForwardsSoFar(u, polls, n - 1);
      assert polls[..n][..n - 1] == polls[..n - 1];
      var before := After(u, polls[..n - 1]);
      PollMoves(before, u.idleTimeout, polls[n - 1], Delivered(polls, n - 1), FinishCall([], false));
      assert !TimesOutAt(u, polls, n - 1) && !EndsAt(u, polls, n - 1);
      PassesOn(before, u.idleTimeout, polls[n - 1]);
    }
  }

  lemma PassesOn(s: State, idleTimeout: nat, p: Poll)
    requires p.now < s.deadline
    ensures Polled(s, idleTimeout, p).1 == Passed(p.upstream)
  {
  }

  /** When the stream was last heard of before poll `k`: at a chunk, a fault, or its opening. */
  function LastHeard(u: Setup, polls: seq<Poll>, k: nat): nat
    requires k <= |polls|
  {
    if k == 0 then u.openedAt
    else if polls[k - 1].upstream.ChunkReady? || polls[k - 1].upstream.FaultReady? then polls[k - 1].later
    else LastHeard(u, polls, k - 1)
  }

  lemma {:induction false} DeadlineFollows(u: Setup, polls: seq<Poll>, k: nat)
    requires k <= |polls| && forall i | 0 <= i < k :: !TimesOutAt(u, polls, i) && !EndsAt(u, polls, i)
    ensures After(u, polls[..k]).deadline == LastHeard(u, polls, k) + u.idleTimeout
  {
    if k == 0 {
      assert polls[..0] == [];
    } else {
      DeadlineFollows(u, polls, k - 1);
      assert polls[..k][..k - 1] == polls[..k - 1];
      assert !TimesOutAt(u, polls, k - 1) && !EndsAt(u, polls, k - 1);
    }
  }

  /** A stream that has not ended times out exactly when it has been silent for the idle timeout. */
  lemma TimesOutIffSilent(u: Setup, polls: seq<Poll>, k: nat)
    requires k < |polls| && k <= FirstEnd(u, polls)
    ensures TimesOutAt(u, polls, k) <==> polls[k].now >= LastHeard(u, polls, k) + u.idleTimeout
  {
    FirstEndIsFirst(u, polls);
    DeadlineFollows(u, polls, k);
  }
}
