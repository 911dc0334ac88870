/**
 The background OAuth refresh: per-provider health kept across sweeps, and what every run of sweeps
 guarantees about when a token is tried again. Times are seconds on one monotonic clock.
 */
module TokenRefresh {

  const BACKOFF_BASE: nat := 60
  const BACKOFF_MAX: nat := 1800
  const U32_MAX: nat := 0xFFFF_FFFF

  function Pow2(n: nat): nat {
    if n == 0 then 1 else 2 * Pow2(n - 1)
  }

  function Min(a: nat, b: nat): nat {
    if a < b then a else b
  }

  /** The shift is capped at 16, the multiplier cut to 32 bits, and the delay capped at the maximum. */
  function BackoffDelay(fails: nat): nat {
    var mult := Pow2(Min(fails, 16)) % 0x1_0000_0000;
    Min(BACKOFF_BASE * mult, BACKOFF_MAX)
  }

  lemma {:induction false} Pow2Grows(a: nat, b: nat)
    requires a <= b
    ensures Pow2(a) <= Pow2(b)
    decreases b - a
  {
    if a < b {
      Pow2Grows(a, b - 1);
    }
  }

  lemma Pow2Of16()
    ensures Pow2(16) == 65536
  {
    assert Pow2(4) == 16;
    assert Pow2(8) == 256;
    assert Pow2(12) == 4096;
  }

  /** Capping the shift never shows: the delay is the plain exponential, capped, for every count. */
  lemma BackoffIsCappedExponential(fails: nat)
    ensures BackoffDelay(fails) == Min(BACKOFF_BASE * Pow2(fails), BACKOFF_MAX)
    ensures fails > 16 ==> BackoffDelay(fails) == BACKOFF_MAX
  {
    var shift := Min(fails, 16);
    Pow2Grows(shift, 16);
    Pow2Grows(shift, fails);
    Pow2Of16();
    CapHidesTheCut(Pow2(shift), Pow2(fails));
  }

  lemma CapHidesTheCut(small: nat, full: nat)
    requires small <= 65536 && small <= full && (small < 65536 ==> full == small)
    ensures Min(BACKOFF_BASE * (small % 0x1_0000_0000), BACKOFF_MAX) == Min(BACKOFF_BASE * full, BACKOFF_MAX)
    ensures small == 65536 ==> Min(BACKOFF_BASE * full, BACKOFF_MAX) == BACKOFF_MAX
  {
  }

  // ---- Health ----

  datatype Health = Health(dead: map<string, string>, until: map<string, nat>, fails: map<string, nat>) {
    /** The token is known dead and unchanged, or the provider is still backing off. */
    predicate ShouldSkip(name: string, token: string, now: nat) {
      || (name in dead && dead[name] == token)
      || (name in until && now < until[name])
    }

    function AfterSuccess(name: string): Health {
      Health(dead - {name}, until - {name}, fails - {name})
    }

    function AfterTerminal(name: string, token: string): Health {
      Health(dead[name := token], until - {name}, fails - {name})
    }

    function Fails(name: string): nat {
      if name in fails then fails[name] else 0
    }

    function AfterTransient(name: string, now: nat): Health {
      Health(dead, until[name := now + BackoffDelay(Fails(name))],
             fails[name := Min(Fails(name) + 1, U32_MAX)])
    }
  }

  function Healthy(): Health {
    Health(map[], map[], map[])
  }

  /**
   How an attempt ends. `Unrecorded` stands for the exits that leave the books alone: an unreadable
   auth file, or new tokens that could not be saved or loaded.
   */
  datatype Outcome = Success | Terminal | Transient | Unrecorded

  class RefreshState {
    var dead: map<string, string>
    var backoffUntil: map<string, nat>
    var transientFails: map<string, nat>
    ghost var steps: seq<Step>

    /** The books are those of one run from a clean start, however many sweeps it took. */
    ghost predicate Valid()
      reads this
    {
      View() == After(Healthy(), steps)
    }

    function View(): Health
      reads this
    {
      Health(dead, backoffUntil, transientFails)
    }

    constructor ()
      ensures Valid() && View() == Healthy() && steps == []
    {
      dead, backoffUntil, transientFails, steps := map[], map[], map[], [];
    }

    method ShouldSkip(name: string, token: string, now: nat) returns (skip: bool)
      ensures skip == View().ShouldSkip(name, token, now)
    {
      if name in dead && dead[name] == token {
        return true;
      }
      if name in backoffUntil && now < backoffUntil[name] {
        return true;
      }
      return false;
    }

    method RecordSuccess(name: string)
      modifies `dead, `backoffUntil, `transientFails
      ensures View() == old(View()).AfterSuccess(name)
    {
      dead := dead - {name};
      backoffUntil := backoffUntil - {name};
      transientFails := transientFails - {name};
    }

    method RecordTerminal(name: string, token: string)
      modifies `dead, `backoffUntil, `transientFails
      ensures View() == old(View()).AfterTerminal(name, token)
    {
      dead := dead[name := token];
      backoffUntil := backoffUntil - {name};
      transientFails := transientFails - {name};
    }

    method RecordTransient(name: string, now: nat)
      modifies `dead, `backoffUntil, `transientFails
      ensures View() == old(View()).AfterTransient(name, now)
    {
      var count := if name in transientFails then transientFails[name] else 0;
      var delay := BackoffDelay(count);
      transientFails := transientFails[name := Min(count + 1, U32_MAX)];
      backoffUntil := backoffUntil[name := now + delay];
    }

    /**
     One sweep over the providers due for refresh; the outcomes of the attempts are inputs. It continues
     the run of all sweeps before it.
     */
    method Sweep(due: seq<(string, string)>, now: nat, outcomes: seq<Outcome>) returns (attempted: seq<bool>)
      requires Valid() && |outcomes| == |due|
      modifies this
      ensures Valid()
      ensures steps == old(steps) + SweepSteps(due, now, outcomes)
      ensures |attempted| == |due|
      ensures forall k | 0 <= k < |due| :: attempted[k] == Attempted(Healthy(), steps, |old(steps)| + k)
    {
      attempted := [];
      ghost var sweep, start := SweepSteps(due, now, outcomes), View();
      for k := 0 to |due|
        invariant steps == old(steps) && Swept(start, sweep, k, View(), attempted)
      {
        SweptOneMore(start, sweep, k, View(), attempted);
        var (name, token) := due[k];
        var skip := ShouldSkip(name, token, now);
        attempted := attempted + [!skip];
        if skip {
          continue;
        }
        match outcomes[k] {
          case Success => RecordSuccess(name);
          case Terminal => RecordTerminal(name, token);
          case Transient => RecordTransient(name, now);
          case Unrecorded =>
        }
      }
      SweepContinues(steps, sweep, View(), attempted);
      steps := steps + sweep;
    }
  }

  /** The first `k` steps of a sweep have been taken. */
  ghost predicate Swept(start: Health, sweep: seq<Step>, k: nat, now: Health, attempted: seq<bool>) {
    && k == |attempted| <= |sweep| && now == After(start, sweep[..k])
    && forall i | 0 <= i < k :: attempted[i] == Attempted(start, sweep, i)
  }

  lemma SweptOneMore(start: Health, sweep: seq<Step>, k: nat, now: Health, attempted: seq<bool>)
    requires k < |sweep| && Swept(start, sweep, k, now, attempted)
    ensures var s := sweep[k];
            Swept(start, sweep, k + 1, Next(now, s), attempted + [!now.ShouldSkip(s.name, s.token, s.now)])
  {
    assert sweep[..k + 1][..k] == sweep[..k];
  }

  /** A finished sweep continues the run before it. */
  lemma SweepContinues(steps: seq<Step>, sweep: seq<Step>, now: Health, attempted: seq<bool>)
    requires Swept(After(Healthy(), steps), sweep, |sweep|, now, attempted)
    ensures now == After(Healthy(), steps + sweep)
    ensures forall k | 0 <= k < |sweep| :: attempted[k] == Attempted(Healthy(), steps + sweep, |steps| + k)
  {
    assert sweep[..|sweep|] == sweep;
    RunsChain(Healthy(), steps, sweep);
    forall k | 0 <= k < |sweep| ensures attempted[k] == Attempted(Healthy(), steps + sweep, |steps| + k) {
      AttemptsChain(Healthy(), steps, sweep, k);
    }
  }

  // ---- Runs ----

  /** One provider coming up in one sweep. */
  datatype Step = Step(name: string, token: string, now: nat, outcome: Outcome)

  function SweepSteps(due: seq<(string, string)>, now: nat, outcomes: seq<Outcome>): (steps: seq<Step>)
    requires |outcomes| == |due|
    ensures |steps| == |due|
  {
    seq(|due|, k requires 0 <= k < |due| => Step(due[k].0, due[k].1, now, outcomes[k]))
  }

  function Next(h: Health, s: Step): Health {
    if h.ShouldSkip(s.name, s.token, s.now) then h
    else match s.outcome
         case Success => h.AfterSuccess(s.name)
         case Terminal => h.AfterTerminal(s.name, s.token)
         case Transient => h.AfterTransient(s.name, s.now)
         case Unrecorded => h
  }

  function After(h: Health, steps: seq<Step>): Health {
    if steps == [] then h else Next(After(h, steps[..|steps| - 1]), steps[|steps| - 1])
  }

  /** Step `k` reached the upstream. */
  predicate Attempted(h: Health, steps: seq<Step>, k: nat)
    requires k < |steps|
  {
    !After(h, steps[..k]).ShouldSkip(steps[k].name, steps[k].token, steps[k].now)
  }

  predicate AttemptEnded(h: Health, steps: seq<Step>, k: nat, name: string, outcome: Outcome)
    requires k < |steps|
  {
    steps[k].name == name && steps[k].outcome == outcome && Attempted(h, steps, k)
  }

  /** An attempt on `name` whose outcome went into the books. */
  predicate Recorded(h: Health, steps: seq<Step>, k: nat, name: string)
    requires k < |steps|
  {
    steps[k].name == name && steps[k].outcome != Unrecorded && Attempted(h, steps, k)
  }

  /** Transient failures of `name` since the run began or its last success or rejection. */
  function Streak(steps: seq<Step>, name: string): nat {
    if steps == [] then 0
    else
      var k := |steps| - 1;
      var before := Streak(steps[..k], name);
      if !Recorded(Healthy(), steps, k, name) then before
      else if steps[k].outcome == Transient then before + 1
      else 0
  }

  /** A run that goes on from where another ended is one run. */
  lemma {:induction false} RunsChain(h: Health, a: seq<Step>, b: seq<Step>)
    ensures After(h, a + b) == After(After(h, a), b)
  {
    if b == [] {
      assert a + b == a;
    } else {
      assert (a + b)[..|a + b| - 1] == a + b[..|b| - 1];
      RunsChain(h, a, b[..|b| - 1]);
    }
  }

  lemma AttemptsChain(h: Health, a: seq<Step>, b: seq<Step>, k: nat)
    requires k < |b|
    ensures Attempted(h, a + b, |a| + k) == Attempted(After(h, a), b, k)
  {
    assert (a + b)[..|a| + k] == a + b[..k];
    RunsChain(h, a, b[..k]);
  }

  lemma PrefixAttempts(h: Health, steps: seq<Step>, n: nat, k: nat)
    requires k < n <= |steps|
    ensures Attempted(h, steps[..n], k) == Attempted(h, steps, k)
  {
    assert steps[..n][..k] == steps[..k];
  }

  /** The failure counter is the streak, up to 32-bit saturation. */
  lemma {:induction false} CounterIsStreak(steps: seq<Step>, name: string)
    ensures After(Healthy(), steps).Fails(name) == Min(Streak(steps, name), U32_MAX)
  {
    if steps == [] {
    } else {
      CounterIsStreak(steps[..|steps| - 1], name);
    }
  }

  /** What a transient failure books stays booked until the next recorded attempt. */
  lemma {:induction false} BackoffStays(steps: seq<Step>, i: nat, j: nat, name: string)
    requires i < j <= |steps|
    requires AttemptEnded(Healthy(), steps, i, name, Transient)
    requires forall k | i < k < j :: !Recorded(Healthy(), steps, k, name)
    ensures var until := After(Healthy(), steps[..j]).until;
            name in until && until[name] == steps[i].now + BackoffDelay(Min(Streak(steps[..i], name), U32_MAX))
    decreases j
  {
    assert steps[..j][..j - 1] == steps[..j - 1];
    if j == i + 1 {
      CounterIsStreak(steps[..i], name);
    } else {
      BackoffStays(steps, i, j - 1, name);
      assert !Recorded(Healthy(), steps, j - 1, name);
    }
  }

  /**
   After its k-th transient failure in a row, a provider is not tried again for at least
   min(60 * 2^(k-1), 1800) seconds, whatever the other providers do.
   */
  lemma TransientFailuresAreSpaced(steps: seq<Step>, i: nat, j: nat, name: string)
    requires i < j < |steps|
    requires AttemptEnded(Healthy(), steps, i, name, Transient)
    requires steps[j].name == name && Attempted(Healthy(), steps, j)
    requires forall k | i < k < j :: !Recorded(Healthy(), steps, k, name)
    ensures var failures := Streak(steps[..i + 1], name);
            failures >= 1
            && steps[j].now >= steps[i].now + Min(BACKOFF_BASE * Pow2(failures - 1), BACKOFF_MAX)
  {
    BackoffStays(steps, i, j, name);
    var before := Streak(steps[..i], name);
    assert steps[..i + 1][..i] == steps[..i];
    PrefixAttempts(Healthy(), steps, i + 1, i);
    BackoffIsCappedExponential(Min(before, U32_MAX));
    BackoffIsCappedExponential(before);
  }

  /** Something on the books lifted the ban on `token`: a success, or another token's rejection. */
  predicate Lifts(h: Health, steps: seq<Step>, k: nat, name: string, token: string)
    requires k < |steps|
  {
    AttemptEnded(h, steps, k, name, Success)
    || (AttemptEnded(h, steps, k, name, Terminal) && steps[k].token != token)
  }

  lemma {:induction false} BanStays(h: Health, steps: seq<Step>, i: nat, j: nat, name: string)
    requires i < j <= |steps|
    requires AttemptEnded(h, steps, i, name, Terminal)
    requires forall k | i < k < j :: !Lifts(h, steps, k, name, steps[i].token)
    ensures var dead := After(h, steps[..j]).dead;
            name in dead && dead[name] == steps[i].token
    decreases j
  {
    assert steps[..j][..j - 1] == steps[..j - 1];
    if j > i + 1 {
      BanStays(h, steps, i, j - 1, name);
      assert !Lifts(h, steps, j - 1, name, steps[i].token);
    }
  }

  lemma {:induction false} RejectionClearsBackoff(h: Health, steps: seq<Step>, i: nat, j: nat, name: string)
    requires i < j <= |steps|
    requires AttemptEnded(h, steps, i, name, Terminal)
    requires forall k | i < k < j :: !Recorded(h, steps, k, name)
    ensures var after := After(h, steps[..j]);
            name !in after.until && name in after.dead && after.dead[name] == steps[i].token
    decreases j
  {
    assert steps[..j][..j - 1] == steps[..j - 1];
    if j > i + 1 {
      RejectionClearsBackoff(h, steps, i, j - 1, name);
      assert !Recorded(h, steps, j - 1, name);
    }
  }

  /**
   A rejected token is never sent again until a success or a different token's rejection is recorded
   for that provider. Re-authenticating lifts the pause at once: with nothing recorded since, the
   provider is tried exactly when its token has changed.
   */
  lemma RejectedTokenStaysUnused(h: Health, steps: seq<Step>, i: nat, j: nat)
    requires i < j < |steps| && steps[i].name == steps[j].name
    requires AttemptEnded(h, steps, i, steps[i].name, Terminal)
    ensures Attempted(h, steps, j) && steps[j].token == steps[i].token ==>
              exists k | i < k < j :: Lifts(h, steps, k, steps[i].name, steps[i].token)
    ensures (forall k | i < k < j :: !Recorded(h, steps, k, steps[i].name)) ==>
              (Attempted(h, steps, j) <==> steps[j].token != steps[i].token)
  {
    if forall k | i < k < j :: !Lifts(h, steps, k, steps[i].name, steps[i].token) {
      BanStays(h, steps, i, j, steps[i].name);
    }
    if forall k | i < k < j :: !Recorded(h, steps, k, steps[i].name) {
      RejectionClearsBackoff(h, steps, i, j, steps[i].name);
    }
  }

  /** Until the next attempt on `name` goes into the books, they say the same about its token. */
  lemma {:induction false} DeadStays(steps: seq<Step>, i: nat, j: nat, name: string)
    requires i < j <= |steps|
    requires AttemptEnded(Healthy(), steps, i, name, Transient)
    requires forall k | i < k < j :: !Recorded(Healthy(), steps, k, name)
    ensures var before, after := After(Healthy(), steps[..i]).dead, After(Healthy(), steps[..j]).dead;
            (name in after <==> name in before) && (name in after ==> after[name] == before[name])
    decreases j
  {
    assert steps[..j][..j - 1] == steps[..j - 1];
    if j > i + 1 {
      DeadStays(steps, i, j - 1, name);
      assert !Recorded(Healthy(), steps, j - 1, name);
    }
  }

  /**
   After its k-th transient failure in a row a provider that is due again is tried exactly when
   min(60 * 2^(k-1), 1800) seconds are over: no sooner and no later.
   */
  lemma RetriedExactlyWhenDue(steps: seq<Step>, i: nat, j: nat, name: string)
    requires i < j < |steps|
    requires AttemptEnded(Healthy(), steps, i, name, Transient)
    requires forall k | i < k < j :: !Recorded(Healthy(), steps, k, name)
    requires steps[j].name == name && steps[j].token == steps[i].token
    ensures var failures := Streak(steps[..i + 1], name);
            && failures >= 1
            && (Attempted(Healthy(), steps, j)
                <==> steps[j].now >= steps[i].now + Min(60 * Pow2(failures - 1), 1800))
  {
    BackoffStays(steps, i, j, name);
    DeadStays(steps, i, j, name);
    var before := Streak(steps[..i], name);
    assert steps[..i + 1][..i] == steps[..i];
    PrefixAttempts(Healthy(), steps, i + 1, i);
    BackoffIsCappedExponential(Min(before, U32_MAX));
    BackoffIsCappedExponential(before);
  }

  lemma {:induction false} BooksStayClear(h: Health, steps: seq<Step>, i: nat, j: nat, name: string)
    requires i <= j <= |steps|
    requires name !in After(h, steps[..i]).dead && name !in After(h, steps[..i]).until
    requires forall k | i <= k < j :: !Recorded(h, steps, k, name)
    ensures name !in After(h, steps[..j]).dead && name !in After(h, steps[..j]).until
    decreases j
  {
    if i < j {
      BooksStayClear(h, steps, i, j - 1, name);
      assert steps[..j][..j - 1] == steps[..j - 1];
      assert !Recorded(h, steps, j - 1, name);
    }
  }

  /** A provider with nothing on the books, or with a success as the last entry, is tried whenever it is due. */
  lemma ClearProvidersAreTried(steps: seq<Step>, i: nat, j: nat, name: string)
    requires i <= j < |steps| && steps[j].name == name
    requires i == 0 || AttemptEnded(Healthy(), steps, i - 1, name, Success)
    requires forall k | i <= k < j :: !Recorded(Healthy(), steps, k, name)
    ensures Attempted(Healthy(), steps, j)
  {
    if i == 0 {
      assert steps[..0] == [];
    } else {
      assert steps[..i][..i - 1] == steps[..i - 1];
    }
    BooksStayClear(Healthy(), steps, i, j, name);
  }
}
