/** Header rules: the difficulty and gas-limit arithmetic, header validation, and
    the header a miner assembles on top of a parent. */
module Validator {
  import opened Bytes
  import opened Lineage

  const MAXIMUM_EXTRA_DATA_SIZE := 32
  const MINIMUM_DIFFICULTY := 131072
  const DIFFICULTY_BOUND_DIVISOR := 2048
  const DIFFICULTY_BOUND_DIVISOR_2 := 512
  const HARD_FORK_1 := 23000
  const DURATION_LIMIT := 60
  const HOMESTEAD_BLOCK := 200000
  const EXP_DIFF_PERIOD := 100000
  const MIN_GAS_LIMIT := 5000
  const GENESIS_GAS_LIMIT := 31415926
  const GAS_LIMIT_BOUND_DIVISOR := 1024
  const MAX_BIG := 0xffff_ffff_ffff_ffff_ffff_ffff_ffff_ffff_ffff_ffff_ffff_ffff_ffff_ffff_ffff_ffff

  function Max(a: int, b: int): int {
    if a < b then b else a
  }

  function Min(a: int, b: int): int {
    if a < b then a else b
  }

  predicate IsHomestead(number: int) {
    number >= HOMESTEAD_BLOCK
  }

  function HomesteadDifficulty(time: nat, parentTime: nat, parentDiff: nat): (d: nat) {
    var x := Max(1 - (time - parentTime) / 60, -99);
    Max(parentDiff + parentDiff / DIFFICULTY_BOUND_DIVISOR_2 * x, MINIMUM_DIFFICULTY)
  }

  function FrontierDifficulty(time: nat, parentTime: nat, parentNumber: nat, parentDiff: nat): (d: nat) {
    var adjust := parentDiff / (if parentNumber < HARD_FORK_1 then DIFFICULTY_BOUND_DIVISOR
      else DIFFICULTY_BOUND_DIVISOR_2);
    var diff := Max(if time - parentTime < DURATION_LIMIT then parentDiff + adjust
      else parentDiff - adjust, MINIMUM_DIFFICULTY);
    var periodCount := (parentNumber + 1) / EXP_DIFF_PERIOD;
    if periodCount > 1 then Max(diff + Pow2(periodCount - 2), MINIMUM_DIFFICULTY) else diff
  }

  function CalcDifficulty(time: nat, parentTime: nat, parentNumber: nat, parentDiff: nat): (d: nat)
    ensures d >= MINIMUM_DIFFICULTY
  {
    if IsHomestead(parentNumber + 1) then HomesteadDifficulty(time, parentTime, parentDiff)
    else FrontierDifficulty(time, parentTime, parentNumber, parentDiff)
  }

  /** Waiting longer never raises the difficulty, across both rule sets. */
  lemma {:induction false} DifficultyFallsWithTime(t1: nat, t2: nat, parentTime: nat, parentNumber: nat,
                                                   parentDiff: nat)
    requires t1 <= t2
    ensures CalcDifficulty(t2, parentTime, parentNumber, parentDiff) <= CalcDifficulty(t1, parentTime, parentNumber,
            parentDiff)
  {
    if IsHomestead(parentNumber + 1) {
      var x1 := Max(1 - (t1 - parentTime) / 60, -99);
      var x2 := Max(1 - (t2 - parentTime) / 60, -99);
      assert x2 <= x1;
      var step := parentDiff / DIFFICULTY_BOUND_DIVISOR_2;
      assert step * x2 <= step * x1 by {
        MulMonotone(step, x2, x1);
      }
    }
  }

  lemma {:induction false} MulMonotone(a: nat, x: int, y: int)
    requires x <= y
    ensures a * x <= a * y
  {
    assert a * (y - x) >= 0;
  }

  /** The exponential term never fires: the Homestead rules take over before the second
      period begins, so the difficulty is the parent's, adjusted up or down and capped below. */
  lemma {:induction false} NoExponentialTerm(time: nat, parentTime: nat, parentNumber: nat, parentDiff: nat)
    requires !IsHomestead(parentNumber + 1)
    ensures var adjust := parentDiff / (if parentNumber < 23000 then 2048 else 512);
            CalcDifficulty(time, parentTime, parentNumber, parentDiff)
            == Max(if time - parentTime < 60 then parentDiff + adjust else parentDiff - adjust, 131072)
  {
    assert (parentNumber + 1) / EXP_DIFF_PERIOD <= 1;
  }

  /** From Homestead on the difficulty moves by a 512th of the parent's for every minute: up in
      the first, unchanged in the second, and down from then on, by at most 99 steps. */
  lemma {:induction false} HomesteadSteps(time: nat, parentTime: nat, parentNumber: nat, parentDiff: nat, k: int)
    requires IsHomestead(parentNumber + 1) && 60 * k <= time - parentTime <= 60 * k + 59
    ensures CalcDifficulty(time, parentTime, parentNumber, parentDiff)
            == Max(parentDiff + (1 - Min(k, 100)) * (parentDiff / 512), 131072)
  {
    assert (time - parentTime) / 60 == k;
    var step, x := parentDiff / DIFFICULTY_BOUND_DIVISOR_2, 1 - Min(k, 100);
    assert step * x == x * step;
  }

  function CalcGasLimit(parentGasUsed: nat, parentGasLimit: nat): (gl: int) {
    var contrib := parentGasUsed * 3 / 2 / GAS_LIMIT_BOUND_DIVISOR;
    var decay := parentGasLimit / GAS_LIMIT_BOUND_DIVISOR - 1;
    var gl := Max(parentGasLimit - decay + contrib, MIN_GAS_LIMIT);
    if gl < GENESIS_GAS_LIMIT then Min(parentGasLimit + decay, GENESIS_GAS_LIMIT) else gl
  }

  /** The gas-limit rule a header must obey relative to its parent. */
  predicate GasLimitOk(gasLimit: int, parentGasLimit: nat) {
    && (if parentGasLimit < gasLimit then gasLimit - parentGasLimit else parentGasLimit - gasLimit)
       < parentGasLimit / GAS_LIMIT_BOUND_DIVISOR
    && gasLimit >= MIN_GAS_LIMIT
  }

  /** The band around the parent's limit: less than a 1024th of it away, and never below 5000. */
  lemma {:induction false} GasLimitBand(gasLimit: int, parentGasLimit: nat)
    ensures GasLimitOk(gasLimit, parentGasLimit) <==>
            && 1024 * (gasLimit - parentGasLimit + 1) <= parentGasLimit
            && 1024 * (parentGasLimit - gasLimit + 1) <= parentGasLimit
            && gasLimit >= 5000
  {
  }

  /** More gas used never lowers the next limit. */
  lemma {:induction false} GasLimitFollowsUse(used: nat, more: nat, parentGasLimit: nat)
    requires used <= more && MIN_GAS_LIMIT <= parentGasLimit
    ensures CalcGasLimit(used, parentGasLimit) <= CalcGasLimit(more, parentGasLimit)
  {
    assert used * 3 / 2 / GAS_LIMIT_BOUND_DIVISOR <= more * 3 / 2 / GAS_LIMIT_BOUND_DIVISOR;
  }

  /** Below the target the limit rises by almost a 1024th, but not beyond the target, unless use
      carries it there; otherwise it falls by almost a 1024th and rises by one for 1024 units of
      one and a half times the gas used. */
  lemma {:induction false} GasLimitTarget(used: nat, parentGasLimit: nat)
    requires MIN_GAS_LIMIT <= parentGasLimit
    ensures var drift := parentGasLimit / 1024 - 1;
            var free := parentGasLimit - drift + used * 3 / 2 / 1024;
            CalcGasLimit(used, parentGasLimit)
            == if free >= 31415926 then free else Min(parentGasLimit + drift, 31415926)
    ensures parentGasLimit < 31415926 ==> CalcGasLimit(used, parentGasLimit) > parentGasLimit
  {
  }

  /** The mining strategy stays inside the consensus bound in every branch. */
  lemma {:induction false} MinerGasLimitOk(parentGasUsed: nat, parentGasLimit: nat)
    requires MIN_GAS_LIMIT <= parentGasLimit && parentGasUsed <= parentGasLimit
    ensures GasLimitOk(CalcGasLimit(parentGasUsed, parentGasLimit), parentGasLimit)
  {
    var contrib := parentGasUsed * 3 / 2 / GAS_LIMIT_BOUND_DIVISOR;
    var bound := parentGasLimit / GAS_LIMIT_BOUND_DIVISOR;
    assert contrib * 1024 <= parentGasLimit * 3 / 2;
  }

  datatype HeaderVerdict =
    | HeaderOk
    | ExtraTooLong
    | TimeTooBig
    | TimeInFuture
    | TimeNotAfterParent
    | WrongDifficulty
    | WrongGasLimit
    | WrongNumber
    | WrongNonce

  /** The rules a header must obey; for an uncle the clock does not count. */
  ghost predicate Obeys(pow: Header -> bool, header: Header, parent: Header, now: nat, checkPow: bool, uncle: bool) {
    && header.number == parent.number + 1
    && parent.time < header.time <= (if uncle then MAX_BIG else now)
    && header.difficulty
       == CalcDifficulty(header.time % TWO_64, parent.time % TWO_64, parent.number, parent.difficulty)
    && GasLimitOk(header.gasLimit, parent.gasLimit)
    && |header.extra| <= MAXIMUM_EXTRA_DATA_SIZE
    && (checkPow ==> pow(header))
  }

  /** Validates `header` against `parent`; `now` is the wall clock, `pow` the seal check. */
  function ValidateHeader(pow: Header -> bool, header: Header, parent: Header, now: nat, checkPow: bool,
                          uncle: bool): (v: HeaderVerdict)
    ensures v.HeaderOk? <==> Obeys(pow, header, parent, now, checkPow, uncle)
    ensures v.HeaderOk? ==> header.number == parent.number + 1 && header.difficulty >= MINIMUM_DIFFICULTY
    ensures v.HeaderOk? ==> header.time > parent.time && GasLimitOk(header.gasLimit, parent.gasLimit)
  {
    if |header.extra| > MAXIMUM_EXTRA_DATA_SIZE then ExtraTooLong
    else if uncle && header.time > MAX_BIG then TimeTooBig
    else if !uncle && header.time > now then TimeInFuture
    else if header.time <= parent.time then TimeNotAfterParent
    else if CalcDifficulty(header.time % TWO_64, parent.time % TWO_64, parent.number,
      parent.difficulty) != header.difficulty then WrongDifficulty
    else if !GasLimitOk(header.gasLimit, parent.gasLimit) then WrongGasLimit
    else if header.number - parent.number != 1 then WrongNumber
    else if checkPow && !pow(header) then WrongNonce
    else HeaderOk
  }

  /** Which rule each complaint is about, and which rules were found to hold before it. */
  lemma {:induction false} FirstComplaint(pow: Header -> bool, header: Header, parent: Header, now: nat,
                                          checkPow: bool, uncle: bool)
    ensures var v := ValidateHeader(pow, header, parent, now, checkPow, uncle);
            var small := |header.extra| <= 32;
            var timely := header.time <= (if uncle then MAX_BIG else now);
            var later := header.time > parent.time;
            var apt := header.difficulty
                       == CalcDifficulty(header.time % TWO_64, parent.time % TWO_64, parent.number, parent.difficulty);
            var banded := GasLimitOk(header.gasLimit, parent.gasLimit);
            && (v == ExtraTooLong <==> !small)
            && (v == TimeTooBig <==> small && uncle && !timely)
            && (v == TimeInFuture <==> small && !uncle && !timely)
            && (v == TimeNotAfterParent <==> small && timely && !later)
            && (v == WrongDifficulty <==> small && timely && later && !apt)
            && (v == WrongGasLimit <==> small && timely && later && apt && !banded)
            && (v == WrongNumber
                <==> small && timely && later && apt && banded && header.number != parent.number + 1)
            && (v == WrongNonce <==> Obeys(pow, header, parent, now, false, uncle) && checkPow && !pow(header))
  {
  }

  /** Parent and time fix the difficulty: all headers accepted there carry the same, which is
      the one a miner puts into the header for that time. */
  lemma {:induction false} DifficultyFixed(pow: Header -> bool, a: Header, b: Header, parent: Header, now: nat,
                                           later: nat, uncle: bool)
    requires ValidateHeader(pow, a, parent, now, false, false) == HeaderOk
    requires ValidateHeader(pow, b, parent, later, false, uncle) == HeaderOk && a.time == b.time
    ensures a.difficulty == b.difficulty
    ensures Roomy(parent) ==> NewWorkHeader(parent, a.time, 0, [], 0).difficulty == a.difficulty
  {
  }

  /** A header accepted as a block and carrying a valid seal is also acceptable as
      an uncle: the future-time test is the only one an uncle escapes. */
  lemma {:induction false} ValidBlockIsValidUncle(pow: Header -> bool, header: Header, parent: Header, now: nat)
    requires ValidateHeader(pow, header, parent, now, false, false) == HeaderOk
    requires pow(header) && now <= MAX_BIG
    ensures ValidateHeader(pow, header, parent, now, true, true) == HeaderOk
  {
  }

  /** A header a block can be mined on. */
  predicate Roomy(parent: Header) {
    parent.gasLimit >= MIN_GAS_LIMIT && parent.gasUsed <= parent.gasLimit
  }

  /** The header `commitNewWork` assembles on `parent` at wall-clock time `now`. */
  function NewWorkHeader(parent: Header, now: nat, coinbase: Address, extra: seq<nat>, hash: Hash): (h: Header)
    requires Roomy(parent)
  {
    var tstamp := if parent.time >= now then parent.time + 1 else now;
    MinerGasLimitOk(parent.gasUsed, parent.gasLimit);
    Header(hash, parent.hash, parent.number + 1, tstamp,
           CalcDifficulty(tstamp % TWO_64, parent.time % TWO_64, parent.number, parent.difficulty),
           CalcGasLimit(parent.gasUsed, parent.gasLimit), 0, coinbase, extra)
  }

  /** Mined headers pass validation on every valid parent; before the clock catches
      up with the chosen timestamp the only complaint is the future time. */
  lemma {:induction false} MinedHeaderPasses(pow: Header -> bool, parent: Header, now: nat, later: nat,
                                             coinbase: Address, extra: seq<nat>, hash: Hash)
    requires Roomy(parent)
    requires |extra| <= MAXIMUM_EXTRA_DATA_SIZE
    ensures var h := NewWorkHeader(parent, now, coinbase, extra, hash);
            && ValidateHeader(pow, h, parent, later, false, false)
               == (if h.time <= later then HeaderOk else TimeInFuture)
            && h.time == Max(now, parent.time + 1) && h.coinbase == coinbase && h.extra == extra && h.hash == hash
            && h.parentHash == parent.hash && h.number == parent.number + 1 && h.gasUsed == 0
            && ValidateHeader(pow, h, parent, later, true, false) ==
               (if h.time > later then TimeInFuture else if pow(h) then HeaderOk else WrongNonce)
  {
    MinerGasLimitOk(parent.gasUsed, parent.gasLimit);
  }
}
