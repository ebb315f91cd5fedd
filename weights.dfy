/**
 * The payload stored with each library entry and the paper-style weight rule applied to it
 * after a use: the weight grows by 6% on success, shrinks by 10% on failure, a failing entry
 * whose weight has sunk below 0.3 gets one reset to 0.5, and an entry whose weight falls below
 * 0.2 is marked for garbage collection.
 */
module WeightPolicy {

  /** One library entry: the payload a point carries in the vector store. */
  datatype Payload = Payload(
    moduleName: string,
    description: string,
    interfaceSig: seq<string>,
    codeText: string,
    weight: real,
    successCount: nat,
    failCount: nat,
    contentHash: string,
    tags: seq<string>,
    gc: bool,
    secondChanceGiven: bool)

  /** The weight an entry starts with unless its creator says otherwise. */
  const DefaultWeight: real := 0.5

  /** A failing entry lighter than this is eligible for its second chance. */
  const ResetBelow: real := 0.3

  /** An entry lighter than this is marked for garbage collection. */
  const GcBelow: real := 0.2

  /** The garbage-collection flag after an update that leaves weight `w`: once set it stays set. */
  function GcAfter(gc: bool, w: real): (r: bool)
    ensures r <==> gc || w < GcBelow
  {
    gc || w < GcBelow
  }

  /**
   * The rule as it is written: the reset is gated only by the caller's `secondChanceGiven`
   * argument, never by the flag a previous reset stored in the payload.
   */
  function UpdateAsWritten(p: Payload, success: bool, secondChanceArg: bool): (r: Payload)
    ensures r.moduleName == p.moduleName && r.codeText == p.codeText && r.tags == p.tags
    ensures r.gc <==> p.gc || r.weight < GcBelow
  {
    if success then
      var w := p.weight * 1.06;
      p.(weight := w, successCount := p.successCount + 1, gc := GcAfter(p.gc, w))
    else if p.weight < ResetBelow && !secondChanceArg then
      p.(weight := DefaultWeight, secondChanceGiven := true, gc := GcAfter(p.gc, DefaultWeight))
    else
      var w := p.weight * 0.9;
      p.(weight := w, failCount := p.failCount + 1, gc := GcAfter(p.gc, w))
  }

  /**
   * The rule as its documentation describes it: the reset is given once, so it is gated by the
   * stored flag as well as by the caller's argument.
   */
  function Update(p: Payload, success: bool, secondChanceArg: bool): (r: Payload)
    ensures r.moduleName == p.moduleName && r.codeText == p.codeText && r.tags == p.tags
    ensures r.gc <==> p.gc || r.weight < GcBelow
  {
    if success then
      var w := p.weight * 1.06;
      p.(weight := w, successCount := p.successCount + 1, gc := GcAfter(p.gc, w))
    else if p.weight < ResetBelow && !secondChanceArg && !p.secondChanceGiven then
      p.(weight := DefaultWeight, secondChanceGiven := true, gc := GcAfter(p.gc, DefaultWeight))
    else
      var w := p.weight * 0.9;
      p.(weight := w, failCount := p.failCount + 1, gc := GcAfter(p.gc, w))
  }

  /** A success multiplies the weight by 1.06 and counts one success; the failure count stays. */
  lemma SuccessEffect(p: Payload, arg: bool)
    ensures var r := Update(p, true, arg);
      r.weight == p.weight * 1.06 && r.successCount == p.successCount + 1
      && r.failCount == p.failCount && r.secondChanceGiven == p.secondChanceGiven
  {
  }

  /**
   * A failure either resets a light entry to 0.5 without counting it, or multiplies the weight
   * by 0.9 and counts one failure.
   */
  lemma FailureEffect(p: Payload, arg: bool)
    ensures var r := Update(p, false, arg);
      r.successCount == p.successCount
      && if p.weight < ResetBelow && !arg && !p.secondChanceGiven then
           r.weight == DefaultWeight && r.failCount == p.failCount && r.secondChanceGiven
         else
           r.weight == p.weight * 0.9 && r.failCount == p.failCount + 1
           && r.secondChanceGiven == p.secondChanceGiven
  {
  }

  /** For a positive weight, success raises it and a counted failure lowers it. */
  lemma WeightMonotone(p: Payload, success: bool, arg: bool)
    requires p.weight > 0.0
    ensures var r := Update(p, success, arg);
      (success ==> r.weight > p.weight)
      && (r.failCount == p.failCount + 1 ==> r.weight < p.weight)
  {
  }

  /** The weight never turns negative. */
  lemma WeightStaysNonNegative(p: Payload, success: bool, arg: bool)
    requires p.weight >= 0.0
    ensures Update(p, success, arg).weight >= 0.0
  {
  }

  /** The garbage-collection mark is never cleared by an update. */
  lemma GcSticky(p: Payload, success: bool, arg: bool)
    requires p.gc
    ensures Update(p, success, arg).gc && UpdateAsWritten(p, success, arg).gc
  {
  }

  /** Once the second chance has been given, it stays given. */
  lemma SecondChanceSticky(p: Payload, success: bool, arg: bool)
    requires p.secondChanceGiven
    ensures Update(p, success, arg).secondChanceGiven
  {
  }

  /** A list of outcomes applied in turn, oldest first, by callers that pass no second-chance argument. */
  function Replay(p: Payload, outcomes: seq<bool>): (r: Payload)
    decreases |outcomes|
    ensures r.moduleName == p.moduleName && r.codeText == p.codeText
    ensures p.gc ==> r.gc
    ensures outcomes != [] && r.weight < GcBelow ==> r.gc
  {
    if outcomes == [] then p else Replay(Update(p, outcomes[0], false), outcomes[1..])
  }

  /** The same under the rule as written. */
  function ReplayAsWritten(p: Payload, outcomes: seq<bool>): (r: Payload)
    decreases |outcomes|
    ensures r.moduleName == p.moduleName && r.codeText == p.codeText
    ensures p.gc ==> r.gc
    ensures outcomes != [] && r.weight < GcBelow ==> r.gc
  {
    if outcomes == [] then p else ReplayAsWritten(UpdateAsWritten(p, outcomes[0], false), outcomes[1..])
  }

  /** `n` failures in a row. */
  function Failures(n: nat): (r: seq<bool>)
    ensures |r| == n && forall i | 0 <= i < n :: !r[i]
  {
    if n == 0 then [] else [false] + Failures(n - 1)
  }

  /** The intended rule gives `p` its second chance on this outcome. */
  predicate IsReset(p: Payload, success: bool) {
    !success && p.weight < ResetBelow && !p.secondChanceGiven
  }

  /** How many second chances the intended rule hands out along a history. */
  function ResetCount(p: Payload, outcomes: seq<bool>): nat
    decreases |outcomes|
  {
    if outcomes == [] then 0
    else (if IsReset(p, outcomes[0]) then 1 else 0) + ResetCount(Update(p, outcomes[0], false), outcomes[1..])
  }

  /** Under the intended rule an entry gets its second chance at most once, whatever its history. */
  lemma {:induction false} AtMostOneReset(p: Payload, outcomes: seq<bool>)
    ensures ResetCount(p, outcomes) <= if p.secondChanceGiven then 0 else 1
    decreases |outcomes|
  {
    if outcomes != [] {
      var q := Update(p, outcomes[0], false);
      AtMostOneReset(q, outcomes[1..]);
      if IsReset(p, outcomes[0]) {
        assert q.secondChanceGiven;
      } else if p.secondChanceGiven {
        SecondChanceSticky(p, outcomes[0], false);
      }
    }
  }

  /** 0.9 to the `n`th. */
  function Pow09(n: nat): (r: real)
    ensures 0.0 < r <= 1.0
  {
    if n == 0 then 1.0 else 0.9 * Pow09(n - 1)
  }

  /** After its second chance, `n` failures multiply the weight by 0.9 to the `n`th and count `n` failures. */
  lemma {:induction false} FailuresAfterReset(p: Payload, n: nat)
    requires p.secondChanceGiven
    ensures Replay(p, Failures(n)).failCount == p.failCount + n
    ensures Replay(p, Failures(n)).weight == p.weight * Pow09(n)
    decreases n
  {
    if n > 0 {
      assert Failures(n)[1..] == Failures(n - 1);
      var q := Update(p, false, false);
      FailuresAfterReset(q, n - 1);
      assert Replay(p, Failures(n)) == Replay(q, Failures(n - 1));
      calc {
        Replay(p, Failures(n)).weight;
        q.weight * Pow09(n - 1);
        p.weight * 0.9 * Pow09(n - 1);
      }
    }
  }

  /** Two successes from the default weight: 0.5, then 0.53, then 0.5618. */
  lemma TwoSuccesses(p: Payload)
    requires p.weight == 0.5
    ensures Update(p, true, false).weight == 0.53
    ensures Update(Update(p, true, false), true, false).weight == 0.5618
  {
  }

  /** A light entry's first failure resets it to 0.5; the next one takes it to 0.45. */
  lemma ResetThenShrink(p: Payload)
    requires p.weight == 0.25 && !p.secondChanceGiven
    ensures Update(p, false, false).weight == 0.5
    ensures Update(Update(p, false, false), false, false).weight == 0.45
  {
  }

  /** Under the intended rule, ten failures in a row from weight 0.25 mark the entry for collection. */
  lemma TenFailuresCollect(p: Payload)
    requires p.weight == 0.25 && !p.secondChanceGiven
    ensures Replay(p, Failures(10)).gc
  {
    var q := Update(p, false, false);
    assert Failures(10)[1..] == Failures(9);
    assert Replay(p, Failures(10)) == Replay(q, Failures(9));
    FailuresAfterReset(q, 9);
    assert Pow09(9) == 0.387420489;
  }

  /**
   * The rule as written never marks an entry for collection on a failure, and it resets a light
   * entry to 0.5 every time, even when its second chance has already been given.
   */
  lemma AsWrittenFailureNeverCollects(p: Payload)
    ensures UpdateAsWritten(p, false, false).gc == p.gc
    ensures p.weight < ResetBelow ==> UpdateAsWritten(p, false, false).weight == DefaultWeight
  {
  }

  /** Replayed as written, no run of failures ever marks an unmarked entry. */
  lemma {:induction false} AsWrittenFailuresKeepEntry(p: Payload, n: nat)
    requires !p.gc
    ensures !ReplayAsWritten(p, Failures(n)).gc
    decreases n
  {
    if n > 0 {
      assert Failures(n)[1..] == Failures(n - 1);
      AsWrittenFailureNeverCollects(p);
      AsWrittenFailuresKeepEntry(UpdateAsWritten(p, false, false), n - 1);
    }
  }

  /**
   * The input that separates the two rules: an entry that already had its second chance and
   * fails again at weight 0.25 is reset to 0.5 as written, but shrinks to 0.225 as intended.
   */
  lemma AsWrittenResetsTwice(p: Payload)
    requires p.weight == 0.25 && p.secondChanceGiven
    ensures UpdateAsWritten(p, false, false).weight == 0.5
    ensures Update(p, false, false).weight == 0.225
  {
  }
}
