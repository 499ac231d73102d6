/** The averaging daemon as a timed state machine (avg_daemon in src/meteoavg.cc). */
module AvgDaemon {
  import Division
  import Series
  import opened Averager

  /** The next wake-up, thirty seconds after the next multiple of 300. */
  function WakeUp(now: int): int {
    now - now % 300 + 330
  }

  /** The multiple of 300 that a round started from this clock reading works for. */
  function Slot(now: int): int {
    WakeUp(now) - WakeUp(now) % 300
  }

  /**
    One turn of the endless loop: the clock readings, each but the last followed by an interrupted
    sleep, and the time at which the uninterrupted sleep ended.
   */
  datatype Round = Round(readings: seq<int>, wake: int)

  ghost predicate Possible(r: Round) {
    |r.readings| > 0 && r.readings[0] >= 0 &&
    (forall i :: 0 < i < |r.readings| ==> r.readings[i - 1] <= r.readings[i]) &&
    WakeUp(r.readings[|r.readings| - 1]) <= r.wake
  }

  /** A run of the daemon under a monotone clock. */
  ghost predicate Run(rounds: seq<Round>) {
    (forall i :: 0 <= i < |rounds| ==> Possible(rounds[i])) &&
    (forall i :: 0 < i < |rounds| ==> rounds[i - 1].wake <= rounds[i].readings[0])
  }

  function SlotOf(r: Round): int
    requires |r.readings| > 0
  {
    Slot(r.readings[|r.readings| - 1])
  }

  /** An average asked for by avg.add. */
  datatype Key = Key(interval: int, timekey: int)

  const INTERVALS: seq<int> := [300, 1800, 7200, 86400]

  /** The averages computed in a round: those of the four whose time key is legal. */
  predicate Computes(r: Round, offset: int, k: Key)
    requires |r.readings| > 0
  {
    k.interval in INTERVALS && k.timekey == SlotOf(r) + offset - k.interval && k.timekey % k.interval == 0
  }

  /** The body of the endless loop. */
  method OneRound(r: Round, offset: int) returns (computed: seq<Key>)
    requires Possible(r)
    ensures forall k :: k in computed <==> Computes(r, offset, k)
    ensures forall k :: k in computed ==>
              k.interval in {300, 1800, 7200, 86400} && k.timekey % k.interval == 0 &&
              k.timekey + k.interval == SlotOf(r) + offset
    ensures forall i, j :: 0 <= i < j < |computed| ==> computed[i] != computed[j]
  {
    var i := 0;
    var next := WakeUp(r.readings[0]);
    while i + 1 < |r.readings|
      invariant 0 <= i < |r.readings|
      invariant next == WakeUp(r.readings[i])
    {
      i := i + 1;
      next := WakeUp(r.readings[i]);
    }
    next := next - next % 300;
    var timekey := next + offset;
    computed := [];
    for j := 0 to 4
      invariant forall k :: k in computed <==>
                  Computes(r, offset, k) && exists m :: 0 <= m < j && INTERVALS[m] == k.interval
      invariant forall a, b :: 0 <= a < b < |computed| ==> computed[a] != computed[b]
    {
      var interval := INTERVALS[j];
      var added := Add(timekey - interval, interval);
      if added {
        computed := computed + [Key(interval, timekey - interval)];
      }
    }
    forall k | Computes(r, offset, k) ensures exists m :: 0 <= m < 4 && INTERVALS[m] == k.interval {
    }
  }

  /** The window of an average that a round computes ends with the slot of the round. */
  lemma WindowOfRound(r: Round, offset: int, k: Key)
    requires |r.readings| > 0 && Computes(r, offset, k)
    ensures k.interval > 0
    ensures var g := GroupOf(k.timekey, k.interval, offset);
            g.to == SlotOf(r) && forall t :: InWindow(g, t) <==> SlotOf(r) - k.interval <= t <= SlotOf(r)
  {
    hide SlotOf, GroupOf, InWindow;
    IntervalPositive(k.interval);
    LegalKeys(k.timekey, k.interval, offset);
    WindowOfKey(k.timekey, k.interval, offset);
  }

  lemma IntervalPositive(interval: int)
    requires interval in INTERVALS
    ensures interval > 0
  {
  }

  lemma WindowOfKey(timekey: int, interval: int, offset: int)
    requires interval > 0 && GroupOf(timekey, interval, offset).timekey == timekey
    ensures var g := GroupOf(timekey, interval, offset);
            g.to == timekey + interval - offset &&
            forall t :: InWindow(g, t) <==> timekey - offset <= t <= timekey + interval - offset
  {
    hide Series.Aligned;
  }

  /** Averager::add does nothing for an illegal time key. */
  method Add(timekey: int, interval: int) returns (added: bool)
    requires interval in INTERVALS
    ensures added <==> timekey % interval == 0
  {
    LegalKeys(timekey, interval, 0);
    added := Legal(timekey, interval);
  }

  lemma SlotIs(now: int)
    ensures Slot(now) == 300 * (now / 300 + 1) && WakeUp(now) == Slot(now) + 30
  {
    Division.Recomposed(now, 300);
    Division.QuotientIs(WakeUp(now), now / 300 + 1, 30, 300);
  }

  lemma SlotBounds(now: int)
    requires now >= 0
    ensures Slot(now) % 300 == 0 && now < Slot(now) <= now + 300 && WakeUp(now) == Slot(now) + 30
  {
    hide Slot, WakeUp;
    SlotIs(now);
    Division.Recomposed(now, 300);
    Division.QuotientIs(Slot(now), now / 300 + 1, 0, 300);
  }

  /** Within a round the readings only move forward. */
  lemma {:induction false} LastReading(r: Round, i: nat)
    requires Possible(r) && i < |r.readings|
    ensures r.readings[0] <= r.readings[i]
  {
    if i > 0 {
      LastReading(r, i - 1);
    }
  }

  /** Each round works for a later slot than the one before. */
  lemma {:induction false} SlotsAdvance(rounds: seq<Round>, i: nat, j: nat)
    requires Run(rounds) && i < j < |rounds|
    ensures SlotOf(rounds[i]) + 300 <= SlotOf(rounds[j])
    decreases j
  {
    if i + 1 < j {
      SlotsAdvance(rounds, i, j - 1);
    }
    var before, r := rounds[j - 1], rounds[j];
    LastReading(before, |before.readings| - 1);
    LastReading(r, |r.readings| - 1);
    var last, now := before.readings[|before.readings| - 1], r.readings[|r.readings| - 1];
    assert Possible(before) && Possible(r);
    SlotBounds(last);
    SlotBounds(now);
    assert before.wake <= r.readings[0];
    SlotLater(Slot(last), now);
  }

  lemma SlotLater(slot: int, now: int)
    requires slot % 300 == 0 && slot <= now
    ensures slot + 300 <= Slot(now)
  {
    hide Slot;
    SlotIs(now);
    Division.Recomposed(now, 300);
    Division.Recomposed(slot, 300);
  }

  /** No average is computed in two different rounds. */
  lemma ComputedOnce(rounds: seq<Round>, offset: int, i: nat, j: nat, k: Key)
    requires Run(rounds) && i < |rounds| && j < |rounds|
    requires Computes(rounds[i], offset, k) && Computes(rounds[j], offset, k)
    ensures i == j
  {
    if i < j {
      SlotsAdvance(rounds, i, j);
    } else if j < i {
      SlotsAdvance(rounds, j, i);
    }
  }

  /** Every round goes to its last sleep before the slot after the next has come. */
  ghost predicate Prompt(rounds: seq<Round>) {
    forall i :: 0 < i < |rounds| && |rounds[i - 1].readings| > 0 && |rounds[i].readings| > 0 ==>
      rounds[i].readings[|rounds[i].readings| - 1] < SlotOf(rounds[i - 1]) + 300
  }

  /** After an interrupted sleep the clock is read before the slot comes. */
  predicate Undisturbed(r: Round) {
    forall i :: 0 < i < |r.readings| ==> r.readings[i] < Slot(r.readings[i - 1])
  }

  /** The sleep ends on time, and the work of the round takes less than 270 seconds. */
  predicate OnTime(before: Round, r: Round) {
    |before.readings| > 0 && |r.readings| > 0 &&
    before.wake == SlotOf(before) + 30 && r.readings[0] < before.wake + 270
  }

  /**
    Sleeps that end on time, rounds of less than 270 seconds, and no interruption in the thirty seconds
    after a slot make a run prompt.
   */
  lemma PromptWhenUndisturbed(rounds: seq<Round>)
    requires Run(rounds) && (forall i :: 0 <= i < |rounds| ==> Undisturbed(rounds[i]))
    requires forall i :: 0 < i < |rounds| ==> OnTime(rounds[i - 1], rounds[i])
    ensures Prompt(rounds)
  {
    hide Slot;
    forall i | 0 < i < |rounds|
      ensures rounds[i].readings[|rounds[i].readings| - 1] < SlotOf(rounds[i - 1]) + 300
    {
      var before, r := rounds[i - 1], rounds[i];
      assert Possible(before) && Possible(r) && Undisturbed(r) && OnTime(before, r);
      LastReading(before, |before.readings| - 1);
      StaysBelow(r, SlotOf(before) + 300, |r.readings| - 1, before.readings[|before.readings| - 1]);
    }
  }

  lemma {:induction false} StaysBelow(r: Round, limit: int, i: nat, last: int)
    requires Possible(r) && Undisturbed(r) && i < |r.readings|
    requires limit == Slot(last) + 300 && last >= 0 && r.readings[0] < limit
    ensures r.readings[i] < limit
  {
    hide Slot;
    if i > 0 {
      StaysBelow(r, limit, i - 1, last);
      LastReading(r, i - 1);
      SlotBounds(last);
      Division.AddMultiple(Slot(last), 1, 300);
      SlotAtMost(limit, r.readings[i - 1]);
    }
  }

  lemma SlotAtMost(limit: int, now: int)
    requires limit % 300 == 0 && 0 <= now < limit
    ensures Slot(now) <= limit
  {
    hide Slot;
    SlotIs(now);
    Division.Recomposed(now, 300);
    Division.Recomposed(limit, 300);
  }

  /** Prompt rounds work for consecutive slots. */
  lemma {:induction false} SlotsConsecutive(rounds: seq<Round>, i: nat)
    requires Run(rounds) && Prompt(rounds) && i < |rounds|
    ensures SlotOf(rounds[i]) == SlotOf(rounds[0]) + 300 * i
  {
    if i > 0 {
      SlotsConsecutive(rounds, i - 1);
      var before, r := rounds[i - 1], rounds[i];
      assert Possible(before) && Possible(r);
      LastReading(before, |before.readings| - 1);
      LastReading(r, |r.readings| - 1);
      SlotBounds(before.readings[|before.readings| - 1]);
      SlotNext(SlotOf(before), r.readings[|r.readings| - 1]);
    }
  }

  lemma SlotNext(slot: int, now: int)
    requires slot % 300 == 0 && slot <= now < slot + 300
    ensures Slot(now) == slot + 300
  {
    hide Slot;
    SlotIs(now);
    Division.Recomposed(now, 300);
    Division.Recomposed(slot, 300);
  }

  /** An average falls due when its interval ends. */
  function Due(k: Key, offset: int): int {
    k.timekey + k.interval - offset
  }

  lemma DueOnSlot(k: Key, offset: int)
    requires k.interval in INTERVALS && k.timekey % k.interval == 0 && offset % 300 == 0
    ensures Due(k, offset) % 300 == 0
  {
    MultipleOf300(k);
    Division.SumOfMultiples(k.timekey, k.interval, 300);
    Division.SumOfMultiples(k.timekey + k.interval, offset, 300);
  }

  lemma MultipleOf300(k: Key)
    requires k.interval in INTERVALS && k.timekey % k.interval == 0
    ensures k.timekey % 300 == 0 && k.interval % 300 == 0
  {
    var m := if k.interval == 300 then 1 else if k.interval == 1800 then 6 else if k.interval == 7200 then 24 else 288;
    IntervalIs(k.interval, m);
    Division.MultipleOfMultiple(k.timekey, m, 300, k.interval);
    Division.QuotientIs(k.interval, m, 0, 300);
  }

  lemma IntervalIs(interval: int, m: int)
    requires interval in INTERVALS
    requires m == if interval == 300 then 1 else if interval == 1800 then 6 else if interval == 7200 then 24 else 288
    ensures interval == m * 300 && interval > 0
  {
  }

  /** A legal average that falls due while the daemon works. */
  ghost predicate DueInRun(rounds: seq<Round>, offset: int, k: Key)
    requires Run(rounds) && |rounds| > 0
  {
    k.interval in INTERVALS && k.timekey % k.interval == 0 &&
    Ready(rounds[0]) && Ready(rounds[|rounds| - 1]) &&
    SlotOf(rounds[0]) <= Due(k, offset) <= SlotOf(rounds[|rounds| - 1])
  }

  predicate Ready(r: Round) {
    |r.readings| > 0
  }

  ghost predicate ComputedInRun(rounds: seq<Round>, offset: int, k: Key)
    requires Run(rounds)
  {
    exists i :: 0 <= i < |rounds| && Possible(rounds[i]) && Computes(rounds[i], offset, k)
  }

  /**
    With an offset that is a multiple of 300, every legal average falling due in the run is computed
    exactly when the run is prompt.
   */
  lemma EveryLegalAverage(rounds: seq<Round>, offset: int)
    requires Run(rounds) && |rounds| > 0 && offset % 300 == 0
    ensures (forall k :: DueInRun(rounds, offset, k) ==> ComputedInRun(rounds, offset, k)) <==> Prompt(rounds)
  {
    hide Computes, Slot, Due;
    if Prompt(rounds) {
      forall k | DueInRun(rounds, offset, k) ensures ComputedInRun(rounds, offset, k) {
        var i := ComputedInRound(rounds, offset, k);
        assert Possible(rounds[i]);
      }
    } else {
      var k := Missed(rounds, offset);
    }
  }

  /** And none of them is computed in two rounds. */
  lemma ExactlyOnce(rounds: seq<Round>, offset: int, k: Key)
    requires Run(rounds) && |rounds| > 0 && offset % 300 == 0 && Prompt(rounds) && DueInRun(rounds, offset, k)
    ensures exists i :: 0 <= i < |rounds| && Computes(rounds[i], offset, k) &&
              forall j :: 0 <= j < |rounds| && Computes(rounds[j], offset, k) ==> j == i
  {
    hide Computes, Slot, Due;
    var i := ComputedInRound(rounds, offset, k);
    forall j | 0 <= j < |rounds| && Computes(rounds[j], offset, k) ensures j == i {
      ComputedOnce(rounds, offset, i, j, k);
    }
  }

  /** A late round skips a slot, and with it at least the average of its last five minutes. */
  lemma Missed(rounds: seq<Round>, offset: int) returns (k: Key)
    requires Run(rounds) && |rounds| > 0 && offset % 300 == 0 && !Prompt(rounds)
    ensures DueInRun(rounds, offset, k) && !ComputedInRun(rounds, offset, k)
  {
    hide Slot, Computes, Run, DueInRun, ComputedInRun;
    var i :| 0 < i < |rounds| && |rounds[i - 1].readings| > 0 && |rounds[i].readings| > 0 &&
             rounds[i].readings[|rounds[i].readings| - 1] >= SlotOf(rounds[i - 1]) + 300;
    AllPossible(rounds);
    var skipped := SlotOf(rounds[i - 1]) + 300;
    SlotSkipped(rounds[i - 1], rounds[i]);
    k := Key(300, skipped + offset - 300);
    SkippedIsDue(rounds, offset, i, k, skipped);
    NotAmong(rounds, offset, i, k, skipped);
  }

  lemma AllPossible(rounds: seq<Round>)
    requires Run(rounds)
    ensures forall i :: 0 <= i < |rounds| ==> Possible(rounds[i]) && |rounds[i].readings| > 0
  {
  }

  lemma SlotSkipped(before: Round, r: Round)
    requires Possible(before) && Possible(r) && r.readings[|r.readings| - 1] >= SlotOf(before) + 300
    ensures (SlotOf(before) + 300) % 300 == 0 && SlotOf(before) + 300 < SlotOf(r)
  {
    hide Slot;
    LastReading(before, |before.readings| - 1);
    LastReading(r, |r.readings| - 1);
    SlotBounds(before.readings[|before.readings| - 1]);
    Division.AddMultiple(SlotOf(before), 1, 300);
    SlotLater(SlotOf(before) + 300, r.readings[|r.readings| - 1]);
  }

  lemma SkippedIsDue(rounds: seq<Round>, offset: int, i: nat, k: Key, skipped: int)
    requires Run(rounds) && 0 < i < |rounds| && |rounds[i - 1].readings| > 0 && |rounds[i].readings| > 0
    requires offset % 300 == 0 && skipped % 300 == 0 && k == Key(300, skipped + offset - 300)
    requires SlotOf(rounds[i - 1]) < skipped < SlotOf(rounds[i])
    ensures DueInRun(rounds, offset, k)
  {
    hide Slot;
    AllPossible(rounds);
    SlotOrder(rounds, 0, i - 1);
    SlotOrder(rounds, i, |rounds| - 1);
    assert INTERVALS[0] == 300;
  }

  lemma NotAmong(rounds: seq<Round>, offset: int, i: nat, k: Key, skipped: int)
    requires Run(rounds) && 0 < i < |rounds| && |rounds[i - 1].readings| > 0 && |rounds[i].readings| > 0
    requires SlotOf(rounds[i - 1]) < skipped < SlotOf(rounds[i]) && k.timekey == skipped + offset - k.interval
    ensures !ComputedInRun(rounds, offset, k)
  {
    hide Slot, Computes;
    forall j | 0 <= j < |rounds| && Possible(rounds[j]) ensures !Computes(rounds[j], offset, k) {
      if j < i {
        SlotOrder(rounds, j, i - 1);
      } else {
        SlotOrder(rounds, i, j);
      }
      OtherSlot(rounds[j], offset, k, skipped);
    }
  }

  lemma SlotOrder(rounds: seq<Round>, i: nat, j: nat)
    requires Run(rounds) && i <= j < |rounds|
    ensures Ready(rounds[i]) && Ready(rounds[j]) && SlotOf(rounds[i]) <= SlotOf(rounds[j])
  {
    assert Possible(rounds[i]) && Possible(rounds[j]);
    if i < j {
      SlotsAdvance(rounds, i, j);
    }
  }

  lemma OtherSlot(r: Round, offset: int, k: Key, skipped: int)
    requires |r.readings| > 0 && SlotOf(r) != skipped && k.timekey == skipped + offset - k.interval
    ensures !Computes(r, offset, k)
  {
  }

  lemma ComputedInRound(rounds: seq<Round>, offset: int, k: Key) returns (i: nat)
    requires Run(rounds) && Prompt(rounds) && |rounds| > 0 && offset % 300 == 0 && DueInRun(rounds, offset, k)
    ensures i < |rounds| && Computes(rounds[i], offset, k)
  {
    hide Slot, SlotOf, Prompt, Run, Due, Computes, Possible;
    AllPossible(rounds);
    DueOnSlot(k, offset);
    SlotAligned(rounds[0]);
    SlotsConsecutive(rounds, |rounds| - 1);
    i := Place(SlotOf(rounds[0]), Due(k, offset), |rounds| - 1);
    SlotsConsecutive(rounds, i);
    ComputesItsDue(rounds[i], offset, k);
  }

  lemma SlotAligned(r: Round)
    requires Possible(r)
    ensures SlotOf(r) % 300 == 0
  {
    hide Slot;
    LastReading(r, |r.readings| - 1);
    SlotBounds(r.readings[|r.readings| - 1]);
  }

  /** Which of n further slots after the first one this is. */
  lemma Place(first: int, slot: int, n: nat) returns (i: nat)
    requires first % 300 == 0 && slot % 300 == 0 && first <= slot <= first + 300 * n
    ensures i <= n && slot == first + 300 * i
  {
    Division.SumOfMultiples(slot, first, 300);
    Division.Recomposed(slot - first, 300);
    i := (slot - first) / 300;
  }

  lemma ComputesItsDue(r: Round, offset: int, k: Key)
    requires |r.readings| > 0 && SlotOf(r) == Due(k, offset)
    requires k.interval in INTERVALS && k.timekey % k.interval == 0
    ensures Computes(r, offset, k)
  {
    hide SlotOf;
  }

  /** With any other offset no average is ever computed. */
  lemma NothingLegal(r: Round, offset: int, k: Key)
    requires Possible(r) && offset % 300 != 0
    ensures !Computes(r, offset, k)
  {
    hide Slot;
    LastReading(r, |r.readings| - 1);
    SlotBounds(r.readings[|r.readings| - 1]);
    if Computes(r, offset, k) {
      MultipleOf300(k);
      Division.SumOfMultiples(k.timekey, k.interval, 300);
      Division.SumOfMultiples(k.timekey + k.interval, SlotOf(r), 300);
    }
  }
}
