/**
 * When the abstract collector writes a checkpoint.  The collector visits
 * instances one after another; a visit fetches an abstract only when the
 * instance has none yet, and the fetch counter counts those fetches.  Before
 * each visit, a checkpoint of the whole taxonomy is written if the counter
 * is a multiple of the batch size.  `needs[j]` says whether visit `j`
 * fetched; the schedule is then a function of `needs` alone.
 */
module CheckpointSchedule {

  /** Fetches between checkpoints. */
  const Batch: nat := 1000

  /** The fetch counter after the visits `needs`. */
  function Fetches(needs: seq<bool>): (n: nat)
    ensures n <= |needs|
  {
    if needs == [] then 0
    else Fetches(needs[..|needs| - 1]) + (if needs[|needs| - 1] then 1 else 0)
  }

  /** Whether the visit after `needs` starts with a checkpoint. */
  predicate FiresBefore(needs: seq<bool>)
  {
    Fetches(needs) % Batch == 0
  }

  /** The counter values at which checkpoints were written, in order. */
  function Schedule(needs: seq<bool>): (s: seq<nat>)
    ensures |s| <= |needs|
    ensures forall i :: 0 <= i < |s| ==> s[i] % Batch == 0 && s[i] <= Fetches(needs)
    ensures forall i, j :: 0 <= i < j < |s| ==> s[i] <= s[j]
    ensures needs != [] && Fetches(needs) < Batch ==> |s| > 0
  {
    if needs == [] then []
    else
      var init := needs[..|needs| - 1];
      Schedule(init) + (if FiresBefore(init) then [Fetches(init)] else [])
  }

  /** The first visit is always preceded by a checkpoint, at count 0. */
  lemma {:induction false} FirstCheckpointAtZero(needs: seq<bool>)
    requires needs != []
    ensures |Schedule(needs)| > 0 && Schedule(needs)[0] == 0
  {
    var init := needs[..|needs| - 1];
    if init != [] {
      FirstCheckpointAtZero(init);
    }
  }

  /** Every multiple of the batch size that the counter has passed was checkpointed. */
  lemma {:induction false} EveryBatchCheckpointed(needs: seq<bool>, m: nat)
    requires m % Batch == 0 && m < Fetches(needs)
    ensures m in Schedule(needs)
  {
    var init := needs[..|needs| - 1];
    if m < Fetches(init) {
      EveryBatchCheckpointed(init, m);
    } else {
      assert Fetches(init) == m;
    }
  }

  /**
   * Bounded loss: at any point, at most one batch of fetched abstracts is
   * newer than the last checkpoint.
   */
  lemma {:induction false} AtMostOneBatchUnsaved(needs: seq<bool>)
    requires needs != []
    ensures |Schedule(needs)| > 0
    ensures Fetches(needs) <= Schedule(needs)[|Schedule(needs)| - 1] + Batch
  {
    FirstCheckpointAtZero(needs);
    var init := needs[..|needs| - 1];
    if init != [] {
      AtMostOneBatchUnsaved(init);
      if !FiresBefore(init) {
        BelowNextMultiple(Schedule(init)[|Schedule(init)| - 1], Fetches(init));
      }
    }
  }

  /** A count that is no multiple of the batch size stays below the next multiple. */
  lemma BelowNextMultiple(last: nat, n: nat)
    requires last % Batch == 0 && n <= last + Batch && n % Batch != 0
    ensures n < last + Batch
  {
  }

  /**
   * A run over instances that all have abstracts fetches nothing and, its
   * counter staying at 0, writes a checkpoint before every visit.
   */
  lemma {:induction false} ResumedRunOnlyCheckpoints(needs: seq<bool>)
    requires forall j :: 0 <= j < |needs| ==> !needs[j]
    ensures Fetches(needs) == 0
    ensures Schedule(needs) == seq(|needs|, _ => 0)
  {
    if needs != [] {
      ResumedRunOnlyCheckpoints(needs[..|needs| - 1]);
    }
  }

  /** While the counter rests on a multiple, each visit that fetches nothing repeats the checkpoint. */
  lemma RepeatsWhileIdle(needs: seq<bool>)
    requires FiresBefore(needs)
    ensures Schedule(needs + [false] + [false]) == Schedule(needs) + [Fetches(needs), Fetches(needs)]
  {
    var once := needs + [false];
    assert once[..|once| - 1] == needs;
    assert (once + [false])[..|once|] == once;
  }
}
