/** The two polling loops that wait for the remote backup: first until the
    backups folder lists something (at most 5 attempts), then, per listed
    file, until its size has stopped changing (at most 120 attempts). Each
    remote observation is an element of an input sequence; the one-minute
    sleeps between attempts are left out. */
module Polling {
  import opened Wrappers

  const ExistenceAttempts := 5
  const StabilizationAttempts := 120

  // ---------------------------------------------------------------------
  // Existence polling
  // ---------------------------------------------------------------------

  /** `Created(k)`: the listing was first non-empty at attempt `k` (1-based). */
  datatype Existence = Created(attempt: nat) | NotCreated

  /** The outcome of the attempts from `i` on, given the listing count seen
      at every attempt. */
  function ExistenceFrom(counts: seq<nat>, i: nat): Existence
    requires 1 <= i <= ExistenceAttempts + 1 && |counts| >= ExistenceAttempts
    decreases ExistenceAttempts + 1 - i
  {
    if i > ExistenceAttempts then NotCreated
    else if counts[i - 1] != 0 then Created(i)
    else ExistenceFrom(counts, i + 1)
  }

  function ExistenceOutcome(counts: seq<nat>): Existence
    requires |counts| >= ExistenceAttempts
  {
    ExistenceFrom(counts, 1)
  }

  /** The loop that sets `backup_exists`: `counts[i - 1]` is the number of
      entries `ls` printed at attempt `i`. */
  method AwaitCreation(counts: seq<nat>) returns (r: Existence)
    requires |counts| >= ExistenceAttempts
    ensures r == ExistenceOutcome(counts)
  {
    var backupExists := false;
    r := NotCreated;
    for i := 1 to ExistenceAttempts + 1
      invariant ExistenceFrom(counts, i) == ExistenceOutcome(counts)
    {
      if counts[i - 1] == 0 {
        // not yet: wait one minute and look again
      } else {
        backupExists := true;
        r := Created(i);
        break;
      }
    }
    if !backupExists {
      r := NotCreated;
    }
  }

  /** What the attempts from `i` on find: the first attempt with a non-empty
      listing, or none. */
  lemma {:induction false} ExistenceFromSpec(counts: seq<nat>, i: nat)
    requires 1 <= i <= ExistenceAttempts + 1 && |counts| >= ExistenceAttempts
    ensures match ExistenceFrom(counts, i)
      case Created(k) => i <= k <= ExistenceAttempts && counts[k - 1] > 0
                         && forall j :: i - 1 <= j < k - 1 ==> counts[j] == 0
      case NotCreated => forall j :: i - 1 <= j < ExistenceAttempts ==> counts[j] == 0
    decreases ExistenceAttempts + 1 - i
  {
    if i <= ExistenceAttempts && counts[i - 1] == 0 {
      ExistenceFromSpec(counts, i + 1);
    }
  }

  /** Existence polling succeeds at attempt `k` exactly when the listing was
      empty at attempts 1 to k-1 and non-empty at `k`. */
  lemma ExistenceSucceedsAt(counts: seq<nat>, k: nat)
    requires |counts| >= ExistenceAttempts && 1 <= k <= ExistenceAttempts
    ensures ExistenceOutcome(counts) == Created(k)
        <==> counts[k - 1] > 0 && forall j :: 0 <= j < k - 1 ==> counts[j] == 0
  {
    ExistenceFromSpec(counts, 1);
  }

  /** Existence polling fails exactly when all five listings were empty. */
  lemma ExistenceFailsIffAllEmpty(counts: seq<nat>)
    requires |counts| >= ExistenceAttempts
    ensures ExistenceOutcome(counts) == NotCreated
        <==> forall j :: 0 <= j < ExistenceAttempts ==> counts[j] == 0
  {
    ExistenceFromSpec(counts, 1);
  }

  // ---------------------------------------------------------------------
  // Stabilization polling
  // ---------------------------------------------------------------------

  /** `Stable(k, size)`: at attempt `k` (1-based) the size was positive and
      equal to the previous sample. `TooLong(last)`: all attempts ran out;
      `last` is the final value of `source_last_fsize`. */
  datatype Stabilization = Stable(attempt: nat, size: nat) | TooLong(lastSize: Option<nat>)

  /** The samples seen at attempts `k - 1` and `k` are equal and positive. */
  predicate SettledAt(sizes: seq<nat>, k: int)
  {
    2 <= k <= |sizes| && sizes[k - 2] == sizes[k - 1] && sizes[k - 1] > 0
  }

  /** The outcome of the attempts from `i` on, when the last size recorded
      before attempt `i` is `last`. */
  function StabilizationFrom(sizes: seq<nat>, i: nat, last: Option<nat>): Stabilization
    requires 1 <= i <= StabilizationAttempts + 1 && |sizes| >= StabilizationAttempts
    decreases StabilizationAttempts + 1 - i
  {
    if i > StabilizationAttempts then TooLong(last)
    else if sizes[i - 1] > 0 && last == Some(sizes[i - 1]) then Stable(i, sizes[i - 1])
    else StabilizationFrom(sizes, i + 1, Some(sizes[i - 1]))
  }

  /** The last size starts as `None`. */
  function StabilizationOutcome(sizes: seq<nat>): Stabilization
    requires |sizes| >= StabilizationAttempts
  {
    StabilizationFrom(sizes, 1, None)
  }

  /** The loop that sets `backup_created`: `sizes[i - 1]` is the size `stat`
      reported at attempt `i`. */
  method AwaitStable(sizes: seq<nat>) returns (r: Stabilization)
    requires |sizes| >= StabilizationAttempts
    ensures r == StabilizationOutcome(sizes)
  {
    var lastSize: Option<nat> := None;
    var backupCreated := false;
    r := TooLong(None);
    for i := 1 to StabilizationAttempts + 1
      invariant lastSize == (if i == 1 then None else Some(sizes[i - 2]))
      invariant StabilizationFrom(sizes, i, lastSize) == StabilizationOutcome(sizes)
    {
      var fsize := sizes[i - 1];
      if fsize > 0 && Some(fsize) == lastSize {
        backupCreated := true;
        r := Stable(i, fsize);
        break;
      } else {
        lastSize := Some(fsize);
      }
    }
    if !backupCreated {
      r := TooLong(lastSize);
    }
  }

  /** What the attempts from `i` on find, when the last size recorded is
      the sample of attempt `i - 1` (none before attempt 1). */
  lemma {:induction false} StabilizationFromSpec(sizes: seq<nat>, i: nat, last: Option<nat>)
    requires 1 <= i <= StabilizationAttempts + 1 && |sizes| >= StabilizationAttempts
    requires last == (if i == 1 then None else Some(sizes[i - 2]))
    ensures match StabilizationFrom(sizes, i, last)
      case Stable(k, size) => i <= k <= StabilizationAttempts && SettledAt(sizes, k) && size == sizes[k - 1]
                              && forall j :: i <= j < k ==> !SettledAt(sizes, j)
      case TooLong(l) => l == Some(sizes[StabilizationAttempts - 1])
                         && forall j :: i <= j <= StabilizationAttempts ==> !SettledAt(sizes, j)
    decreases StabilizationAttempts + 1 - i
  {
    if i <= StabilizationAttempts && !(sizes[i - 1] > 0 && last == Some(sizes[i - 1])) {
      StabilizationFromSpec(sizes, i + 1, Some(sizes[i - 1]));
    }
  }

  /** Stabilization succeeds at attempt `k` exactly when samples `k - 1`
      and `k` are equal and positive and no earlier adjacent pair was. In
      particular it never succeeds at attempt 1. */
  lemma StabilizesAt(sizes: seq<nat>, k: nat)
    requires |sizes| >= StabilizationAttempts && 1 <= k <= StabilizationAttempts
    ensures StabilizationOutcome(sizes) == Stable(k, sizes[k - 1])
        <==> SettledAt(sizes, k) && forall j :: 1 <= j < k ==> !SettledAt(sizes, j)
    ensures StabilizationOutcome(sizes).Stable? ==> StabilizationOutcome(sizes).attempt >= 2
  {
    StabilizationFromSpec(sizes, 1, None);
  }

  /** Stabilization runs out of attempts exactly when no adjacent pair among
      the 120 samples is equal and positive; the last size it recorded is
      then the 120th sample. */
  lemma StabilizationTimesOut(sizes: seq<nat>)
    requires |sizes| >= StabilizationAttempts
    ensures StabilizationOutcome(sizes).TooLong?
        <==> forall j :: 1 <= j <= StabilizationAttempts ==> !SettledAt(sizes, j)
    ensures StabilizationOutcome(sizes).TooLong?
        ==> StabilizationOutcome(sizes).lastSize == Some(sizes[StabilizationAttempts - 1])
  {
    StabilizationFromSpec(sizes, 1, None);
  }

  /** Samples 0, 50, 50: the first 50 only records the size, the second
      one confirms it, so the file is stable at attempt 3. */
  lemma StabilizesOnSecondEqualSample(sizes: seq<nat>)
    requires |sizes| >= StabilizationAttempts && sizes[..3] == [0, 50, 50]
    ensures StabilizationOutcome(sizes) == Stable(3, 50)
  {
    assert sizes[0] == 0 && sizes[1] == 50 && sizes[2] == 50 by {
      assert sizes[..3][0] == sizes[0] && sizes[..3][1] == sizes[1] && sizes[..3][2] == sizes[2];
    }
    StabilizesAt(sizes, 3);
  }
}
