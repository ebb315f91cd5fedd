/**
 * The resource (power, performance, area) estimator for a systolic GEMM array: from the
 * configuration knobs it derives DSP, LUT and BRAM counts, the bytes moved per cycle, a
 * frequency estimate and a power estimate, and checks them against the budgets and goals.
 * Also the driver's stub estimator that scores a design by counting text.
 *
 * The configuration arrives decoded. The square root in the frequency estimate is the oracle
 * `sqrt`; nothing is claimed about its values.
 */
module Ppa {
  import opened Base
  import opened Text

  /** `ceil_div(a, b)` for a positive divisor: the least integer at or above `a / b`. */
  function CeilDiv(a: int, b: int): (r: int)
    requires b > 0
    ensures r * b >= a && (r - 1) * b < a
  {
    var q := (a + b - 1) / b;
    assert b * q <= a + b - 1 < b * q + b;
    q
  }

  /** A non-positive count needs no blocks, a positive one at least one. */
  lemma CeilDivSign(a: int, b: int)
    requires b > 0
    ensures a <= 0 ==> CeilDiv(a, b) <= 0
    ensures a > 0 ==> CeilDiv(a, b) >= 1
    ensures a == 0 ==> CeilDiv(a, b) == 0
  {
    var r := CeilDiv(a, b);
    MulSign(r - 1, b);
    MulSign(r, b);
  }

  /** The sign of a product with a positive factor is the sign of the other factor. */
  lemma MulSign(x: int, b: int)
    requires b > 0
    ensures x * b < 0 <==> x < 0
    ensures x * b > 0 <==> x > 0
  {
  }

  // ---- precision -------------------------------------------------------------------------

  /** The first index at or after `i` holding a decimal digit, if any. */
  function FirstDigit(s: string, i: nat): (r: Option<nat>)
    requires i <= |s|
    decreases |s| - i
    ensures r.Some? ==> i <= r.value < |s| && IsDigit(s[r.value])
    ensures forall k | i <= k < |s| && (r.None? || k < r.value) :: !IsDigit(s[k])
  {
    if i == |s| then None else if IsDigit(s[i]) then Some(i) else FirstDigit(s, i + 1)
  }

  /** The end of the run of digits that starts at `i`. */
  function DigitsEnd(s: string, i: nat): (j: nat)
    requires i <= |s|
    decreases |s| - i
    ensures i <= j <= |s| && (j < |s| ==> !IsDigit(s[j]))
    ensures forall k | i <= k < j :: IsDigit(s[k])
  {
    if i < |s| && IsDigit(s[i]) then DigitsEnd(s, i + 1) else i
  }

  /** The value of a run of decimal digits, most significant first. */
  function DigitsValue(d: string): (n: nat)
    decreases |d|
  {
    if d == [] then 0
    else
      var c := d[|d| - 1];
      var v := if IsDigit(c) then c as int - '0' as int else 0;
      10 * DigitsValue(d[..|d| - 1]) + v
  }

  /** `bits_of`: the first run of digits in the precision name, or 16 when it has none. */
  function BitsOf(prec: string): (r: nat)
    ensures (forall k | 0 <= k < |prec| :: !IsDigit(prec[k])) ==> r == 16
  {
    match FirstDigit(prec, 0)
    case None => 16
    case Some(i) => DigitsValue(prec[i..DigitsEnd(prec, i)])
  }

  /** The run `BitsOf` reads is the first maximal run of digits. */
  lemma BitsOfRun(prec: string)
    requires exists k | 0 <= k < |prec| :: IsDigit(prec[k])
    ensures FirstDigit(prec, 0).Some?
    ensures var i := FirstDigit(prec, 0).value; var j := DigitsEnd(prec, i);
      i < j && BitsOf(prec) == DigitsValue(prec[i..j])
      && (forall k | 0 <= k < i :: !IsDigit(prec[k]))
      && (forall k | i <= k < j :: IsDigit(prec[k])) && (j < |prec| ==> !IsDigit(prec[j]))
  {
  }

  /** The precisions named in the configuration guide. */
  lemma BitsOfExamples()
    ensures BitsOf("int8") == 8 && BitsOf("int16") == 16 && BitsOf("fp16") == 16
    ensures BitsOf("float") == 16 && BitsOf("int4x2") == 4
  {
    assert FirstDigit("int8", 0) == Some(3);
    assert DigitsEnd("int8", 3) == 4;
    assert "int8"[3..4] == "8";
    assert FirstDigit("int16", 0) == Some(3);
    assert DigitsEnd("int16", 3) == 5;
    assert "int16"[3..5] == "16" && "16"[..1] == "1";
    assert FirstDigit("fp16", 0) == Some(2);
    assert DigitsEnd("fp16", 2) == 4;
    assert "fp16"[2..4] == "16";
    assert FirstDigit("int4x2", 0) == Some(3);
    assert DigitsEnd("int4x2", 3) == 4;
    assert "int4x2"[3..4] == "4";
  }

  // ---- configuration ---------------------------------------------------------------------

  /** The array knobs; absent values already replaced by the source's defaults where it has one. */
  datatype Knobs = Knobs(
    rows: int, cols: int, pePipelineDepth: int,
    aLinebufDepth: int, bLinebufDepth: int, cAccumDepth: int,
    stationarity: string, bitwidth: Option<string>)

  /** The technology profile: per-precision DSP and LUT costs and the BRAM word width. */
  datatype Tech = Tech(dspPerMul: map<string, real>, adderCostLut: map<string, int>, bramWordWidth: int)

  /** Budgets (absent when not given) and caps. */
  datatype Constraints = Constraints(
    dspBudget: Option<real>, bramBudget: Option<real>, lutBudget: Option<real>, ffBudget: Option<real>,
    memBwGbpsMax: real, clockMhzMax: real)

  /** The goal fields the estimator reads; absent when not given. */
  datatype Goal = Goal(freqMhz: Option<real>, optimizeFor: Option<seq<string>>)

  datatype Config = Config(knobs: Knobs, tech: Tech, constraints: Constraints, goal: Goal, precision: Option<string>)

  /** The knobs an empty configuration gets. */
  const DefaultKnobs := Knobs(4, 4, 1, 64, 64, 2, "output", None)
  const DefaultTech := Tech(map[], map[], 32)
  const DefaultConstraints := Constraints(None, None, None, None, 12.8, 300.0)

  /** `{**goal, **override}`: every field the override gives wins. */
  function MergeGoal(goal: Goal, override: Goal): (r: Goal)
    ensures r.freqMhz == if override.freqMhz.Some? then override.freqMhz else goal.freqMhz
    ensures r.optimizeFor == if override.optimizeFor.Some? then override.optimizeFor else goal.optimizeFor
  {
    Goal(if override.freqMhz.Some? then override.freqMhz else goal.freqMhz,
         if override.optimizeFor.Some? then override.optimizeFor else goal.optimizeFor)
  }

  /** Merging with an empty override keeps the goal. */
  lemma MergeEmpty(goal: Goal)
    ensures MergeGoal(goal, Goal(None, None)) == goal
  {
  }

  /** The precision name: the knob, else the configuration's precision parameter, else "int16". */
  function Bitwidth(cfg: Config): (r: string) {
    if cfg.knobs.bitwidth.Some? then cfg.knobs.bitwidth.value
    else if cfg.precision.Some? then cfg.precision.value
    else "int16"
  }

  function LookupOr<V>(m: map<string, V>, k: string, default: V): (r: V) {
    if k in m then m[k] else default
  }

  // ---- the estimate ----------------------------------------------------------------------

  /** Why a configuration misses its goal, in the order the checks run. */
  datatype Violation =
    | DspOverBudget(dsps: real, dspBudget: real)
    | BramOverBudget(brams: int, bramBudget: real)
    | LutOverBudget(luts: int, lutBudget: real)
    | FreqShortfall(freq: real, freqGoal: real)
    | AreaBeyondBound

  datatype Report = Report(
    rows: int, cols: int, pes: int, precisionBits: nat,
    estDsps: real, estLuts: int, estBrams: int,
    estFreqMhz: real, memBwGbpsCap: real, bytesPerCycle: real,
    estPowerW: real,
    freqGoalMhz: real, optimizeFor: seq<string>,
    meetsGoal: bool, violations: seq<Violation>)

  /** How many elements fit in one BRAM word: `max(1, word_width // bits)`. */
  function ElemsPerBramWord(wordWidth: int, bits: nat): (r: int)
    requires bits > 0
    ensures r >= 1
  {
    var q := wordWidth / bits;
    if q > 1 then q else 1
  }

  /** One BRAM block holds this many words. */
  const BramBlockWords := 1024

  /** The BRAM blocks for the A and B line buffers and the C accumulators. */
  function EstBrams(k: Knobs, elemsPerWord: int): (r: int)
    requires elemsPerWord >= 1
  {
    var pes := k.rows * k.cols;
    CeilDiv(CeilDiv(k.rows * k.aLinebufDepth, elemsPerWord), BramBlockWords)
      + CeilDiv(CeilDiv(k.cols * k.bLinebufDepth, elemsPerWord), BramBlockWords)
      + CeilDiv(CeilDiv(pes * k.cAccumDepth, elemsPerWord), BramBlockWords)
  }

  /** Each buffer that holds anything costs at least one block. */
  lemma EstBramsLower(k: Knobs, elemsPerWord: int)
    requires elemsPerWord >= 1
    requires k.rows * k.aLinebufDepth >= 0 && k.cols * k.bLinebufDepth >= 0 && k.rows * k.cols * k.cAccumDepth >= 0
    ensures EstBrams(k, elemsPerWord) >= (if k.rows * k.aLinebufDepth > 0 then 1 else 0)
      + (if k.cols * k.bLinebufDepth > 0 then 1 else 0) + (if k.rows * k.cols * k.cAccumDepth > 0 then 1 else 0)
  {
    var e := elemsPerWord;
    var wa, wb, wc := k.rows * k.aLinebufDepth, k.cols * k.bLinebufDepth, k.rows * k.cols * k.cAccumDepth;
    CeilDivSign(wa, e);
    CeilDivSign(wb, e);
    CeilDivSign(wc, e);
    CeilDivSign(CeilDiv(wa, e), BramBlockWords);
    CeilDivSign(CeilDiv(wb, e), BramBlockWords);
    CeilDivSign(CeilDiv(wc, e), BramBlockWords);
  }

  function Mul(x: real, y: real): real { x * y }

  function Div(x: real, y: real): real
    requires y != 0.0
  {
    x / y
  }

  /** Bytes fetched per cycle: weight-stationary streams A heavily, every other order streams a row and a column. */
  function BytesPerCycle(stationarity: string, rows: int, cols: int, bits: nat): (r: real) {
    var bpe := Div(bits as real, 8.0);
    if stationarity == "weight" then
      Mul(Mul(Mul(rows as real, cols as real), 0.25), bpe) + Mul(rows as real, bpe)
    else
      Mul(rows as real, bpe) + Mul(cols as real, bpe)
  }

  /** Output- and input-stationary arrays move the same bytes. */
  lemma OutputLikeInput(rows: int, cols: int, bits: nat)
    ensures BytesPerCycle("output", rows, cols, bits) == BytesPerCycle("input", rows, cols, bits)
    ensures BytesPerCycle("output", rows, cols, bits) == Mul(rows as real, Div(bits as real, 8.0)) + Mul(cols as real, Div(bits as real, 8.0))
  {
  }

  function MinReal(a: real, b: real): (r: real)
    ensures r <= a && r <= b && (r == a || r == b)
  {
    if a <= b then a else b
  }

  function MaxReal(a: real, b: real): (r: real)
    ensures r >= a && r >= b && (r == a || r == b)
  {
    if a >= b then a else b
  }

  /** The frequency before the bandwidth limit: routing slows larger arrays, pipelining helps, the clock cap binds. */
  function RawFmax(pes: int, depth: int, clockMax: real, sqrt: real -> real): (r: real)
    ensures r <= clockMax
  {
    var base := Div(600.0, MaxReal(1.0, sqrt(pes as real)));
    var boost := 1.0 + 0.06 * (if depth - 1 > 0 then depth - 1 else 0) as real;
    MinReal(Mul(base, boost), clockMax)
  }

  /** The estimated frequency: the raw estimate, or the bandwidth-limited one when that is lower. */
  function EstFreq(raw: real, bytesPerCycle: real, memBwCap: real): (r: real)
    ensures r <= raw
    ensures bytesPerCycle > 0.0 ==> r <= Div(Mul(memBwCap, 1000.0), bytesPerCycle)
  {
    var bwLimited := if bytesPerCycle > 0.0 then Div(Mul(memBwCap, 1000.0), bytesPerCycle) else raw;
    MinReal(raw, bwLimited)
  }

  /** Some goal in `optimize_for` is "area", ignoring letter case. */
  predicate OptimizesArea(optimizeFor: seq<string>) {
    exists i | 0 <= i < |optimizeFor| :: Lower(optimizeFor[i]) == "area"
  }

  /** The violations, in check order: DSP, BRAM and LUT budgets, the frequency goal, the composite area bound. */
  function Violations(c: Constraints, dsps: real, brams: int, luts: int, freq: real, freqGoal: real,
                      optimizeFor: seq<string>): seq<Violation>
  {
    DspCheck(c, dsps) + BramCheck(c, brams) + LutCheck(c, luts) + FreqCheck(freq, freqGoal)
      + AreaCheck(c, dsps, brams, luts, optimizeFor)
  }

  function DspCheck(c: Constraints, dsps: real): (r: seq<Violation>)
    ensures Kinds(r) == if c.dspBudget.Some? && dsps > c.dspBudget.value then {0} else {}
  {
    var r := if c.dspBudget.Some? && dsps > c.dspBudget.value then [DspOverBudget(dsps, c.dspBudget.value)] else [];
    KindsSingle(r);
    r
  }

  function BramCheck(c: Constraints, brams: int): (r: seq<Violation>)
    ensures Kinds(r) == if c.bramBudget.Some? && brams as real > c.bramBudget.value then {1} else {}
  {
    var r := if c.bramBudget.Some? && brams as real > c.bramBudget.value then [BramOverBudget(brams, c.bramBudget.value)] else [];
    KindsSingle(r);
    r
  }

  function LutCheck(c: Constraints, luts: int): (r: seq<Violation>)
    ensures Kinds(r) == if c.lutBudget.Some? && luts as real > c.lutBudget.value then {2} else {}
  {
    var r := if c.lutBudget.Some? && luts as real > c.lutBudget.value then [LutOverBudget(luts, c.lutBudget.value)] else [];
    KindsSingle(r);
    r
  }

  function FreqCheck(freq: real, freqGoal: real): (r: seq<Violation>)
    ensures Kinds(r) == if freq < freqGoal then {3} else {}
  {
    var r := if freq < freqGoal then [FreqShortfall(freq, freqGoal)] else [];
    KindsSingle(r);
    r
  }

  function AreaCheck(c: Constraints, dsps: real, brams: int, luts: int, optimizeFor: seq<string>): (r: seq<Violation>)
    ensures Kinds(r) == if OptimizesArea(optimizeFor) && !AreaOk(c, dsps, brams, luts) then {4} else {}
  {
    var r := if OptimizesArea(optimizeFor) && !AreaOk(c, dsps, brams, luts) then [AreaBeyondBound] else [];
    KindsSingle(r);
    r
  }

  /** The composite area `LUT + 200 DSP + 500 BRAM` is within the bound the three budgets imply; with any budget absent it passes. */
  predicate AreaOk(c: Constraints, dsps: real, brams: int, luts: int) {
    c.lutBudget.Some? && c.dspBudget.Some? && c.bramBudget.Some? ==>
      luts as real + Mul(dsps, 200.0) + (brams * 500) as real
        <= c.lutBudget.value + Mul(c.dspBudget.value, 200.0) + Mul(c.bramBudget.value, 500.0)
  }

  /** `evaluate_ppa_from_config`, or the error it raises: a negative PE count has no square root,
      and a zero-bit precision divides by zero. */
  function Evaluate(cfg: Config, override: Goal, sqrt: real -> real): (r: Result<Report, string>)
    ensures r.Ok? ==> (r.value.meetsGoal <==> r.value.violations == [])
    ensures r.Ok? ==> r.value.estFreqMhz <= cfg.constraints.clockMhzMax
    ensures r.Ok? && r.value.bytesPerCycle > 0.0 ==>
      r.value.estFreqMhz <= Div(Mul(r.value.memBwGbpsCap, 1000.0), r.value.bytesPerCycle)
    ensures r.Err? <==> BitsOf(Bitwidth(cfg)) == 0 || cfg.knobs.rows * cfg.knobs.cols < 0
    ensures r.Ok? ==> var v := r.value;
      v.rows == cfg.knobs.rows && v.cols == cfg.knobs.cols && v.pes == cfg.knobs.rows * cfg.knobs.cols
      && v.precisionBits == BitsOf(Bitwidth(cfg))
      && v.estDsps == Mul(v.pes as real, LookupOr(cfg.tech.dspPerMul, Bitwidth(cfg), 1.0))
      && v.estLuts == v.pes * LookupOr(cfg.tech.adderCostLut, Bitwidth(cfg), 64) + v.pes * 20
      && v.estBrams == EstBrams(cfg.knobs, ElemsPerBramWord(cfg.tech.bramWordWidth, v.precisionBits))
      && v.bytesPerCycle == BytesPerCycle(Lower(cfg.knobs.stationarity), v.rows, v.cols, v.precisionBits)
      && v.estFreqMhz == EstFreq(RawFmax(v.pes, cfg.knobs.pePipelineDepth, cfg.constraints.clockMhzMax, sqrt),
                                 v.bytesPerCycle, cfg.constraints.memBwGbpsMax)
      && v.estPowerW == Mul(Mul(0.0005, (v.pes + v.pes) as real), Div(v.estFreqMhz, 200.0))
    ensures r.Ok? ==> var v, goal := r.value, MergeGoal(cfg.goal, override);
      v.freqGoalMhz == (if goal.freqMhz.Some? then goal.freqMhz.value else 200.0)
      && v.optimizeFor == (if goal.optimizeFor.Some? then goal.optimizeFor.value else ["latency"])
      && v.violations == Violations(cfg.constraints, v.estDsps, v.estBrams, v.estLuts, v.estFreqMhz,
                                    v.freqGoalMhz, v.optimizeFor)
  {
    var k := cfg.knobs;
    var goal := MergeGoal(cfg.goal, override);
    var bitwidth := Bitwidth(cfg);
    var bits := BitsOf(bitwidth);
    if bits == 0 then Err("ZeroDivisionError: integer division or modulo by zero")
    else
      var pes := k.rows * k.cols;
      var dsps := Mul(pes as real, LookupOr(cfg.tech.dspPerMul, bitwidth, 1.0));
      var luts := pes * LookupOr(cfg.tech.adderCostLut, bitwidth, 64) + pes * 20;
      var brams := EstBrams(k, ElemsPerBramWord(cfg.tech.bramWordWidth, bits));
      var bpc := BytesPerCycle(Lower(k.stationarity), k.rows, k.cols, bits);
      if pes < 0 then Err("ValueError: math domain error")
      else
        var raw := RawFmax(pes, k.pePipelineDepth, cfg.constraints.clockMhzMax, sqrt);
        var freq := EstFreq(raw, bpc, cfg.constraints.memBwGbpsMax);
        var power := Mul(Mul(0.0005, (pes + pes) as real), Div(freq, 200.0));
        var freqGoal := if goal.freqMhz.Some? then goal.freqMhz.value else 200.0;
        var optimizeFor := if goal.optimizeFor.Some? then goal.optimizeFor.value else ["latency"];
        var violations := Violations(cfg.constraints, dsps, brams, luts, freq, freqGoal, optimizeFor);
        Ok(Report(k.rows, k.cols, pes, bits, dsps, luts, brams, freq, cfg.constraints.memBwGbpsMax, bpc, power,
                  freqGoal, optimizeFor, violations == [], violations))
  }

  /** Where a violation sits in the check order. */
  function CheckOrder(v: Violation): nat {
    match v
    case DspOverBudget(_, _) => 0
    case BramOverBudget(_, _) => 1
    case LutOverBudget(_, _) => 2
    case FreqShortfall(_, _) => 3
    case AreaBeyondBound => 4
  }

  /** The checks a list of violations reports. */
  function Kinds(r: seq<Violation>): set<nat> {
    set i | 0 <= i < |r| :: CheckOrder(r[i])
  }

  lemma KindsSingle(r: seq<Violation>)
    requires |r| <= 1
    ensures Kinds(r) == if r == [] then {} else {CheckOrder(r[0])}
  {
    if r != [] {
      assert CheckOrder(r[0]) in Kinds(r);
    }
  }

  /** Strictly in check order, hence each check at most once. */
  predicate InCheckOrder(r: seq<Violation>) {
    forall i, j | 0 <= i < j < |r| :: CheckOrder(r[i]) < CheckOrder(r[j])
  }

  lemma KindsAppend(x: seq<Violation>, y: seq<Violation>)
    ensures Kinds(x + y) == Kinds(x) + Kinds(y)
  {
    forall n | n in Kinds(x) + Kinds(y) ensures n in Kinds(x + y) {
      if n in Kinds(x) {
        var i :| 0 <= i < |x| && CheckOrder(x[i]) == n;
        assert (x + y)[i] == x[i];
      } else {
        var i :| 0 <= i < |y| && CheckOrder(y[i]) == n;
        assert (x + y)[|x| + i] == y[i];
      }
    }
  }

  /** Appending the result of check `k` to the results of the checks before it keeps the order. */
  lemma AppendCheck(x: seq<Violation>, y: seq<Violation>, k: nat)
    requires InCheckOrder(x) && (forall n | n in Kinds(x) :: n < k)
    requires |y| <= 1 && Kinds(y) <= {k}
    ensures InCheckOrder(x + y) && Kinds(x + y) == Kinds(x) + Kinds(y)
    ensures forall n | n in Kinds(x + y) :: n <= k
  {
    KindsAppend(x, y);
    KindsSingle(y);
    forall i, j | 0 <= i < j < |x + y| ensures CheckOrder((x + y)[i]) < CheckOrder((x + y)[j]) {
      if j >= |x| {
        assert CheckOrder(x[i]) in Kinds(x);
        assert CheckOrder(y[j - |x|]) in Kinds(y);
      }
    }
  }

  /** The checks' results concatenated: in check order, reporting the union of what each check reports. */
  lemma ViolationsJoin(c: Constraints, dsps: real, brams: int, luts: int, freq: real, freqGoal: real,
                       optimizeFor: seq<string>)
    ensures var r := Violations(c, dsps, brams, luts, freq, freqGoal, optimizeFor);
      InCheckOrder(r)
      && Kinds(r) == Kinds(DspCheck(c, dsps)) + Kinds(BramCheck(c, brams)) + Kinds(LutCheck(c, luts))
           + Kinds(FreqCheck(freq, freqGoal)) + Kinds(AreaCheck(c, dsps, brams, luts, optimizeFor))
  {
    var d, b, l := DspCheck(c, dsps), BramCheck(c, brams), LutCheck(c, luts);
    var f, a := FreqCheck(freq, freqGoal), AreaCheck(c, dsps, brams, luts, optimizeFor);
    KindsSingle(d);
    AppendCheck(d, b, 1);
    AppendCheck(d + b, l, 2);
    AppendCheck(d + b + l, f, 3);
    AppendCheck(d + b + l + f, a, 4);
  }

  /** Each budget check reports its violation exactly when the budget is given and exceeded. */
  lemma BudgetViolations(c: Constraints, dsps: real, brams: int, luts: int, freq: real, freqGoal: real,
                         optimizeFor: seq<string>)
    ensures var r := Violations(c, dsps, brams, luts, freq, freqGoal, optimizeFor);
      (0 in Kinds(r) <==> c.dspBudget.Some? && dsps > c.dspBudget.value)
      && (1 in Kinds(r) <==> c.bramBudget.Some? && brams as real > c.bramBudget.value)
      && (2 in Kinds(r) <==> c.lutBudget.Some? && luts as real > c.lutBudget.value)
  {
    ViolationsJoin(c, dsps, brams, luts, freq, freqGoal, optimizeFor);
    var goals := Kinds(FreqCheck(freq, freqGoal)) + Kinds(AreaCheck(c, dsps, brams, luts, optimizeFor));
    assert goals <= {3, 4};
  }

  /**
   * The frequency check reports a shortfall exactly when the estimate is below the goal, the area
   * check exactly when area is a goal and the composite bound is exceeded.
   */
  lemma GoalViolations(c: Constraints, dsps: real, brams: int, luts: int, freq: real, freqGoal: real,
                       optimizeFor: seq<string>)
    ensures var r := Violations(c, dsps, brams, luts, freq, freqGoal, optimizeFor);
      (3 in Kinds(r) <==> freq < freqGoal)
      && (4 in Kinds(r) <==> OptimizesArea(optimizeFor) && !AreaOk(c, dsps, brams, luts))
  {
    ViolationsJoin(c, dsps, brams, luts, freq, freqGoal, optimizeFor);
  }

  /** Latency goals never raise the composite area check, whatever the budgets. */
  lemma LatencyGoalSkipsArea(c: Constraints, dsps: real, brams: int, luts: int, freq: real, freqGoal: real)
    ensures 4 !in Kinds(Violations(c, dsps, brams, luts, freq, freqGoal, ["latency"]))
  {
    GoalViolations(c, dsps, brams, luts, freq, freqGoal, ["latency"]);
    assert Lower("latency")[0] == 'l';
  }

  /** The configuration with every default: a 4 by 4 output-stationary int16 array. */
  const DefaultConfig := Config(DefaultKnobs, DefaultTech, DefaultConstraints, Goal(None, None), None)

  /**
   * The default array: 16 PEs, 16 DSPs, 16 * 64 + 16 * 20 = 1344 LUTs, one block for each of the
   * three buffers, 16 bytes a cycle; with an exact square root it runs at 600 / 4 = 150 MHz and so
   * misses the default 200 MHz goal and nothing else.
   */
  lemma DefaultEstimate(sqrt: real -> real)
    requires sqrt(16.0) == 4.0
    ensures var r := Evaluate(DefaultConfig, Goal(None, None), sqrt);
      r.Ok? && r.value.pes == 16 && r.value.precisionBits == 16
      && r.value.estDsps == 16.0 && r.value.estLuts == 1344 && r.value.estBrams == 3
      && r.value.bytesPerCycle == 16.0 && r.value.estFreqMhz == 150.0
      && r.value.violations == [FreqShortfall(150.0, 200.0)] && !r.value.meetsGoal
  {
    BitsOfExamples();
    DefaultSizes();
    DefaultFrequency(sqrt);
    DefaultChecks();
    assert Lower("output") == "output";
  }

  lemma DefaultSizes()
    ensures ElemsPerBramWord(32, 16) == 2 && EstBrams(DefaultKnobs, 2) == 3
    ensures BytesPerCycle("output", 4, 4, 16) == 16.0
  {
    assert CeilDiv(256, 2) == 128 && CeilDiv(128, 1024) == 1;
    assert CeilDiv(32, 2) == 16 && CeilDiv(16, 1024) == 1;
  }

  lemma DefaultFrequency(sqrt: real -> real)
    requires sqrt(16.0) == 4.0
    ensures EstFreq(RawFmax(16, 1, 300.0, sqrt), 16.0, 12.8) == 150.0
  {
    assert RawFmax(16, 1, 300.0, sqrt) == 150.0;
  }

  lemma DefaultChecks()
    ensures Violations(DefaultConstraints, 16.0, 3, 1344, 150.0, 200.0, ["latency"]) == [FreqShortfall(150.0, 200.0)]
  {
    assert !OptimizesArea(["latency"]) by {
      assert Lower("latency")[0] == 'l';
    }
  }

  // ---- the driver's stub estimator --------------------------------------------------------

  datatype StubReport = StubReport(achievedFreq: int, achievedArea: int, achievedPower: real, meetsGoal: bool)

  /** The stub's frequency: 400 MHz less 5 per multiplication, but never below 100 MHz. */
  function StubFreq(nMults: nat): (f: int)
    ensures 100 <= f <= 400
    ensures nMults <= 60 ==> f == 400 - 5 * nMults
    ensures nMults >= 60 ==> f == 100
  {
    if 400 - nMults * 5 > 100 then 400 - nMults * 5 else 100
  }

  /** More multiplications never raise the stub's frequency. */
  lemma StubFreqMonotone(m: nat, n: nat)
    requires m <= n
    ensures StubFreq(n) <= StubFreq(m)
  {
  }

  /** Forty multiplications give 200 MHz, which misses a 300 MHz goal. */
  lemma StubFortyMults(code: string, goal: Goal)
    requires Count(code, "*") == 40 && goal.freqMhz == Some(300.0)
    ensures StubEvaluate(code, goal).achievedFreq == 200 && !StubEvaluate(code, goal).meetsGoal
  {
  }

  /**
   * The driver's stand-in estimator: 400 MHz less 5 per `*` in the design, never below 100;
   * 100 area units per "module " in it. Its "area" test is case-sensitive.
   */
  function StubEvaluate(code: string, goal: Goal): (r: StubReport)
    ensures 100 <= r.achievedFreq <= 400
    ensures r.achievedFreq == StubFreq(Count(code, "*"))
    ensures r.achievedArea == 100 * Count(code, "module ")
    ensures r.achievedPower == Mul(r.achievedArea as real, 0.02)
    ensures r.meetsGoal <==>
      r.achievedFreq as real >= (if goal.freqMhz.Some? then goal.freqMhz.value else 200.0)
      && ("area" !in (if goal.optimizeFor.Some? then goal.optimizeFor.value else ["latency"]) || r.achievedArea <= 5000)
  {
    var nModules := Count(code, "module ");
    var nMults := Count(code, "*");
    var freqGoal := if goal.freqMhz.Some? then goal.freqMhz.value else 200.0;
    var optimizeFor := if goal.optimizeFor.Some? then goal.optimizeFor.value else ["latency"];
    var freq := StubFreq(nMults);
    var area := nModules * 100;
    StubReport(freq, area, Mul(area as real, 0.02), freq as real >= freqGoal && ("area" !in optimizeFor || area <= 5000))
  }

  /** Asked to optimise "AREA", the stub skips its area test while the estimator runs its own. */
  lemma StubAreaCaseSensitive(code: string)
    ensures StubEvaluate(code, Goal(Some(0.0), Some(["AREA"]))).meetsGoal
    ensures OptimizesArea(["AREA"])
  {
    var r := StubEvaluate(code, Goal(Some(0.0), Some(["AREA"])));
    assert "area" !in ["AREA"] by {
      assert "AREA"[0] != "area"[0];
    }
    assert r.achievedFreq as real >= 0.0;
    assert Lower("AREA") == "area";
    assert Lower(["AREA"][0]) == "area";
  }
}
