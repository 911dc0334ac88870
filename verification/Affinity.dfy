/** Rendezvous picking: the healthy pool entry with the highest score, the last of equals. */
module Affinity {
  import opened Json

  datatype Entry = Entry(id: string, healthy: bool)

  /** Index of the pick; `score` is the hash of an entry's id with the request's affinity. */
  function Pick(pool: seq<Entry>, score: string -> nat): (r: Option<nat>)
    ensures r.Some? ==> r.value < |pool|
  {
    if pool == [] then None
    else
      var last, before := pool[|pool| - 1], Pick(pool[..|pool| - 1], score);
      if last.healthy && (before.None? || score(last.id) >= score(pool[before.value].id)) then Some(|pool| - 1)
      else before
  }

  ghost predicate LastHighest(pool: seq<Entry>, score: string -> nat, i: nat) {
    && i < |pool| && pool[i].healthy
    && forall j | 0 <= j < |pool| && j != i && pool[j].healthy ::
         score(pool[j].id) <= score(pool[i].id) && (j > i ==> score(pool[j].id) < score(pool[i].id))
  }

  ghost predicate NoneHealthy(pool: seq<Entry>) {
    forall j | 0 <= j < |pool| :: !pool[j].healthy
  }

  lemma {:induction false} PickIsLastHighest(pool: seq<Entry>, score: string -> nat)
    ensures match Pick(pool, score)
            case None => NoneHealthy(pool)
            case Some(i) => LastHighest(pool, score, i)
  {
    if pool == [] {
    } else {
      var front := pool[..|pool| - 1];
      PickIsLastHighest(front, score);
      assert forall j | 0 <= j < |front| :: front[j] == pool[j];
    }
  }

  lemma LastHighestIsPick(pool: seq<Entry>, score: string -> nat, i: nat)
    requires LastHighest(pool, score, i)
    ensures Pick(pool, score) == Some(i)
  {
    PickIsLastHighest(pool, score);
    if Pick(pool, score).Some? {
      var k := Pick(pool, score).value;
      assert pool[k].healthy && pool[i].healthy;
    }
  }

  /** Where an entry lands once entry `j` is gone. */
  function Shift(i: nat, j: nat): nat
    requires i != j
  {
    if i > j then i - 1 else i
  }

  function Removed(pool: seq<Entry>, j: nat): seq<Entry>
    requires j < |pool|
  {
    pool[..j] + pool[j + 1..]
  }

  function Inserted(pool: seq<Entry>, k: nat, e: Entry): seq<Entry>
    requires k <= |pool|
  {
    pool[..k] + [e] + pool[k..]
  }

  /** Removing an entry re-routes only what it served itself. */
  lemma RemovalKeepsOtherPicks(pool: seq<Entry>, score: string -> nat, j: nat)
    requires j < |pool| && Pick(pool, score) != Some(j)
    ensures var i := Pick(pool, score);
            Pick(Removed(pool, j), score) == if i.None? then None else Some(Shift(i.value, j))
  {
    var less, i := Removed(pool, j), Pick(pool, score);
    PickIsLastHighest(pool, score);
    if i.Some? {
      HighestAfterRemoval(pool, less, score, i.value, j);
      LastHighestIsPick(less, score, Shift(i.value, j));
    } else {
      NoneHealthyAfterRemoval(pool, j);
      NoneHealthyNoPick(less, score);
    }
  }

  lemma NoneHealthyAfterRemoval(pool: seq<Entry>, j: nat)
    requires j < |pool| && NoneHealthy(pool)
    ensures NoneHealthy(Removed(pool, j))
  {
  }

  lemma NoneHealthyNoPick(pool: seq<Entry>, score: string -> nat)
    requires NoneHealthy(pool)
    ensures Pick(pool, score) == None
  {
    PickIsLastHighest(pool, score);
  }

  lemma HighestAfterRemoval(pool: seq<Entry>, less: seq<Entry>, score: string -> nat, i: nat, j: nat)
    requires j < |pool| && i != j && less == Removed(pool, j)
    requires LastHighest(pool, score, i)
    ensures LastHighest(less, score, Shift(i, j))
  {
    assert less[Shift(i, j)] == pool[i];
    forall k | 0 <= k < |less| && k != Shift(i, j) && less[k].healthy
      ensures score(less[k].id) <= score(pool[i].id) && (k > Shift(i, j) ==> score(less[k].id) < score(pool[i].id))
    {
      assert less[k] == pool[if k < j then k else k + 1];
    }
  }

  /** So does an entry going unhealthy. */
  lemma CooldownKeepsOtherPicks(pool: seq<Entry>, score: string -> nat, j: nat)
    requires j < |pool| && Pick(pool, score) != Some(j)
    ensures Pick(pool[j := pool[j].(healthy := false)], score) == Pick(pool, score)
  {
    PickIsLastHighest(pool, score);
    var cooled := pool[j := pool[j].(healthy := false)];
    if Pick(pool, score).Some? {
      LastHighestIsPick(cooled, score, Pick(pool, score).value);
    } else {
      PickIsLastHighest(cooled, score);
    }
  }

  lemma InsertThenRemove(pool: seq<Entry>, k: nat, e: Entry)
    requires k <= |pool|
    ensures |Inserted(pool, k, e)| == |pool| + 1 && Removed(Inserted(pool, k, e), k) == pool
  {
  }

  /** The pick before and after an insertion at `k`: it is the new entry, or still the same one. */
  predicate KeptOrTaken(was: Option<nat>, now: Option<nat>, k: nat) {
    || now == Some(k)
    || now == if was.None? then None else Some(if was.value >= k then was.value + 1 else was.value)
  }

  /** A new entry takes a request or leaves its pick alone, wherever it is inserted. */
  lemma AdditionKeepsOrTakesPick(pool: seq<Entry>, score: string -> nat, k: nat, e: Entry)
    requires k <= |pool|
    ensures KeptOrTaken(Pick(pool, score), Pick(Inserted(pool, k, e), score), k)
  {
    InsertThenRemove(pool, k, e);
    PickInLarger(pool, Inserted(pool, k, e), score, k);
  }

  lemma PickInLarger(pool: seq<Entry>, more: seq<Entry>, score: string -> nat, k: nat)
    requires k < |more| && Removed(more, k) == pool
    ensures KeptOrTaken(Pick(pool, score), Pick(more, score), k)
  {
    if Pick(more, score) != Some(k) {
      RemovalKeepsOtherPicks(more, score, k);
    }
  }
}
