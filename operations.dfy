/**
 * The feature operations of the feature pipeline: the argument checks of
 * each operation's constructor, and the fit/forward state machine every
 * operation shares (`forward` needs a fitted operation; a second `fit`
 * needs `refit`; an operation becomes fitted only when its `_fit`
 * returns). The tensor arithmetic itself is not modelled: what a tensor
 * computation would raise is part of the `Tensor` description instead.
 */
module FeatureOperations {
  import opened Wrappers
  import opened Strings
  import opened Indexing

  const DEFAULT_INPUT_SHAPE := "batch feature"
  const DEFAULT_NORMALIZE_SHAPE := "() feature"
  const ELLIPSIS_MARK := "..."

  const ALREADY_FITTED := "Already fitted. Set refit=True to override."
  const FILL_VALUE_KIND := "`fill_value` must be 'median' or a number."
  const NO_BOUND := "At least one of min_value or max_value required"
  const NO_QUANTILE := "At least one of min_quantile or max_quantile required"
  const MIN_QUANTILE_RANGE := "min_quantile must be in [0, 1]"
  const MAX_QUANTILE_RANGE := "max_quantile must be in [0, 1]"
  const QUANTILE_ORDER := "min_quantile must be < max_quantile"
  const NO_CHECK := "At least one of on_nans or on_inf must be True"
  const UNKNOWN_METHOD := "method must be 'uniform' or 'gaussian'"

  /** The `ValueError` of an input shape that still holds `...`. */
  function NotFullySpecified(inputShape: string): string
  {
    "input_shape must be fully specified, got: " + inputShape
  }

  /** A Python value passed where the source accepts "median" or a number. */
  datatype PyValue = Text(s: string) | Number(x: real) | Bool(b: bool) | NoneValue

  /** The concrete operations and the constructor arguments each one checks or keeps. */
  datatype Operation =
    | Identity
    | FillNans(fillValue: PyValue, reduceShape: string)
    | Std(normalizeShape: string, mean: Option<real>, std: Option<real>, ignoreNans: bool, minEps: real)
    | Clip(minValue: Option<real>, maxValue: Option<real>)
    | ClipQuantiles(normalizeShape: string, minQuantile: Option<real>, maxQuantile: Option<real>, ignoreNans: bool)
    | ElementwiseOp
    | Log(epsilon: real)
    | NonfiniteRaise(onNans: bool, onInf: bool)
    | ToQuantile(normalizeShape: string, quantileMethod: string, nQuantiles: int, ignoreNans: bool, outputClip: bool,
                 subsample: Option<int>)

  /** The class name, which is also the module's `repr` followed by `()`. */
  function Name(op: Operation): string
  {
    match op
    case Identity => "Identity"
    case FillNans(_, _) => "FillNans"
    case Std(_, _, _, _, _) => "Std"
    case Clip(_, _) => "Clip"
    case ClipQuantiles(_, _, _, _) => "ClipQuantiles"
    case ElementwiseOp => "ElementwiseOp"
    case Log(_) => "Log"
    case NonfiniteRaise(_, _) => "NonfiniteRaise"
    case ToQuantile(_, _, _, _, _, _) => "ToQuantile"
  }

  // ---------------------------------------------------------------------
  // Constructor checks
  // ---------------------------------------------------------------------

  predicate InUnitInterval(q: real)
  {
    0.0 <= q <= 1.0
  }

  /**
   * The checks of a constructor, in the order they raise: the base class
   * rejects `...` first, then each operation checks its own arguments;
   * `ToQuantile` also needs its conjugate shape to be buildable.
   */
  function ArgumentError(inputShape: string, op: Operation): Option<string>
  {
    if ContainsSub(inputShape, ELLIPSIS_MARK) then Some(NotFullySpecified(inputShape))
    else
      match op
      case FillNans(fill, _) =>
        if fill == Text("median") || fill.Number? || fill.Bool? then None else Some(FILL_VALUE_KIND)
      case Clip(lo, hi) =>
        if lo.None? && hi.None? then Some(NO_BOUND) else None
      case ClipQuantiles(_, lo, hi, _) =>
        if lo.None? && hi.None? then Some(NO_QUANTILE)
        else if lo.Some? && !InUnitInterval(lo.value) then Some(MIN_QUANTILE_RANGE)
        else if hi.Some? && !InUnitInterval(hi.value) then Some(MAX_QUANTILE_RANGE)
        else if lo.Some? && hi.Some? && lo.value >= hi.value then Some(QUANTILE_ORDER)
        else None
      case NonfiniteRaise(onNans, onInf) =>
        if !onNans && !onInf then Some(NO_CHECK) else None
      case ToQuantile(normalizeShape, quantileMethod, _, _, _, _) =>
        if quantileMethod != "uniform" && quantileMethod != "gaussian" then Some(UNKNOWN_METHOD)
        else
          var conj := BuildConjShape(inputShape, normalizeShape);
          if conj.Failure? then Some(conj.error) else None
      case _ => None
  }

  /** The arguments every constructor accepts, stated condition by condition. */
  predicate ArgumentsValid(inputShape: string, op: Operation)
  {
    && !ContainsSub(inputShape, ELLIPSIS_MARK)
    && (op.FillNans? ==> op.fillValue == Text("median") || op.fillValue.Number? || op.fillValue.Bool?)
    && (op.Clip? ==> op.minValue.Some? || op.maxValue.Some?)
    && (op.ClipQuantiles? ==>
          && (op.minQuantile.Some? || op.maxQuantile.Some?)
          && (op.minQuantile.Some? ==> InUnitInterval(op.minQuantile.value))
          && (op.maxQuantile.Some? ==> InUnitInterval(op.maxQuantile.value))
          && (op.minQuantile.Some? && op.maxQuantile.Some? ==> op.minQuantile.value < op.maxQuantile.value))
    && (op.NonfiniteRaise? ==> op.onNans || op.onInf)
    && (op.ToQuantile? ==>
          && (op.quantileMethod == "uniform" || op.quantileMethod == "gaussian")
          && BuildConjShape(inputShape, op.normalizeShape).Success?)
  }

  /** A constructor raises exactly when one of its conditions fails. */
  lemma ArgumentsAccepted(inputShape: string, op: Operation)
    ensures ArgumentError(inputShape, op).None? <==> ArgumentsValid(inputShape, op)
  {
  }

  /** An input shape holding `...` is refused before any operation looks at its own arguments. */
  lemma EllipsisRefusedFirst(inputShape: string, op: Operation)
    requires ContainsSub(inputShape, ELLIPSIS_MARK)
    ensures ArgumentError(inputShape, op) == Some(NotFullySpecified(inputShape))
  {
  }

  /**
   * `ClipQuantiles` reports the first failing check: no quantile, then the
   * lower one out of `[0, 1]`, then the upper one, then their order.
   */
  lemma ClipQuantilesErrors(inputShape: string, normalizeShape: string, lo: Option<real>, hi: Option<real>,
                            ignoreNans: bool)
    requires !ContainsSub(inputShape, ELLIPSIS_MARK)
    ensures var e := ArgumentError(inputShape, ClipQuantiles(normalizeShape, lo, hi, ignoreNans));
      && (lo.None? && hi.None? ==> e == Some(NO_QUANTILE))
      && (lo.Some? && !InUnitInterval(lo.value) ==> e == Some(MIN_QUANTILE_RANGE))
      && (lo.Some? && InUnitInterval(lo.value) && hi.Some? && !InUnitInterval(hi.value) ==> e == Some(MAX_QUANTILE_RANGE))
      && (lo.None? && hi.Some? && !InUnitInterval(hi.value) ==> e == Some(MAX_QUANTILE_RANGE))
      && ((lo.Some? && hi.Some? && InUnitInterval(lo.value) && InUnitInterval(hi.value) && lo.value >= hi.value)
            ==> e == Some(QUANTILE_ORDER))
  {
  }

  // ---------------------------------------------------------------------
  // Tensors, as far as the state machine sees them
  // ---------------------------------------------------------------------

  /**
   * A tensor handed to `fit` or `forward`: the text of its shape, the
   * error `parse_shape` raises against the input shape (if any), the
   * error the tensor arithmetic of `_fit` or `_forward` raises on it (if
   * any), and its counts of NaN, +inf and -inf values out of `numel`.
   */
  datatype Tensor = Tensor(shapeText: string, parseError: Option<string>, fitError: Option<string>,
                           forwardError: Option<string>, nanCount: nat, posInfCount: nat, negInfCount: nat, numel: nat)

  /** `check_input`: the `RuntimeError` when the tensor does not have the input shape. */
  function InputError(inputShape: string, x: Tensor): Option<string>
  {
    if x.parseError.Some? then Some("Expected " + inputShape + ", got " + x.shapeText + ": " + x.parseError.value)
    else None
  }

  /** The operations whose `_fit` does nothing. */
  predicate FitIsNoop(op: Operation)
  {
    op.Identity? || op.Clip? || op.ElementwiseOp? || op.Log? || op.NonfiniteRaise?
      || (op.FillNans? && op.fillValue != Text("median"))
  }

  /** What `_fit` raises: nothing for the operations that only store an argument, else what the tensor raises. */
  function FitError(op: Operation, x: Tensor): Option<string>
  {
    if FitIsNoop(op) then None else x.fitError
  }

  /** The issues `NonfiniteRaise` lists, in order: NaN, then +inf, then -inf. */
  function NonfiniteIssues(onNans: bool, onInf: bool, x: Tensor): (issues: seq<string>)
  {
    (if onNans && x.nanCount > 0 then [NatToString(x.nanCount) + " NaN"] else [])
      + (if onInf && x.posInfCount > 0 then [NatToString(x.posInfCount) + " +inf"] else [])
      + (if onInf && x.negInfCount > 0 then [NatToString(x.negInfCount) + " -inf"] else [])
  }

  /** The `RuntimeError` of `NonfiniteRaise` for a non-empty list of issues. */
  function NonfiniteMessage(issues: seq<string>, numel: nat): string
    requires |issues| >= 1
  {
    "Non-finite values: " + JoinText(issues, ", ") + "/" + NatToString(numel)
  }

  /** Nothing is listed exactly when no enabled check finds a value. */
  lemma NonfiniteIssuesEmpty(onNans: bool, onInf: bool, x: Tensor)
    ensures NonfiniteIssues(onNans, onInf, x) == [] <==>
      !(onNans && x.nanCount > 0) && !(onInf && (x.posInfCount > 0 || x.negInfCount > 0))
    ensures |NonfiniteIssues(onNans, onInf, x)| <= 3
    ensures !onNans && !onInf ==> NonfiniteIssues(onNans, onInf, x) == []
  {
  }

  /**
   * `NonfiniteRaise._forward`: the issues are appended one check at a
   * time, and the call raises when there are any.
   */
  method NonfiniteCheck(onNans: bool, onInf: bool, x: Tensor) returns (r: Result<Unit>)
    ensures r.Success? <==> NonfiniteIssues(onNans, onInf, x) == []
    ensures r.Failure? ==>
      (|NonfiniteIssues(onNans, onInf, x)| >= 1
       && r.error == NonfiniteMessage(NonfiniteIssues(onNans, onInf, x), x.numel))
  {
    var issues: seq<string> := [];
    if onNans && x.nanCount > 0 {
      issues := issues + [NatToString(x.nanCount) + " NaN"];
    }
    if onInf {
      if x.posInfCount > 0 {
        issues := issues + [NatToString(x.posInfCount) + " +inf"];
      }
      if x.negInfCount > 0 {
        issues := issues + [NatToString(x.negInfCount) + " -inf"];
      }
    }
    assert issues == NonfiniteIssues(onNans, onInf, x);
    if issues != [] {
      return Failure(NonfiniteMessage(issues, x.numel));
    }
    return Success(Unit);
  }

  /** What `_forward` raises: the non-finite check, the tensor's own error for a function or a quantile map, else nothing. */
  function ForwardError(op: Operation, x: Tensor): Option<string>
  {
    match op
    case NonfiniteRaise(onNans, onInf) =>
      var issues := NonfiniteIssues(onNans, onInf, x);
      if issues == [] then None else Some(NonfiniteMessage(issues, x.numel))
    case ElementwiseOp => x.forwardError
    case ToQuantile(_, _, _, _, _, _) => x.forwardError
    case _ => None
  }

  // ---------------------------------------------------------------------
  // The fit/forward state machine, as a specification
  // ---------------------------------------------------------------------

  /** The message of `forward` on an operation that was never fitted. */
  function NotFitted(op: Operation): string
  {
    "Please fit " + Name(op) + "() before forward pass"
  }

  /** `fit`: its outcome and whether the operation is fitted afterwards, from whether it was before. */
  function FitStep(fitted: bool, inputShape: string, op: Operation, x: Tensor, refit: bool): (Result<Unit>, bool)
  {
    if InputError(inputShape, x).Some? then (Failure(InputError(inputShape, x).value), fitted)
    else if fitted && !refit then (Failure(ALREADY_FITTED), fitted)
    else if FitError(op, x).Some? then (Failure(FitError(op, x).value), fitted)
    else (Success(Unit), true)
  }

  /** `forward`: its outcome, which depends on whether the operation is fitted. */
  function ForwardStep(fitted: bool, inputShape: string, op: Operation, x: Tensor): Result<Unit>
  {
    if InputError(inputShape, x).Some? then Failure(InputError(inputShape, x).value)
    else if !fitted then Failure(NotFitted(op))
    else if ForwardError(op, x).Some? then Failure(ForwardError(op, x).value)
    else Success(Unit)
  }

  /** A `fit` that returns leaves the operation fitted; one that raises leaves it as it was. */
  lemma FitStepState(fitted: bool, inputShape: string, op: Operation, x: Tensor, refit: bool)
    ensures var (r, after) := FitStep(fitted, inputShape, op, x, refit);
      (r.Success? ==> after) && (r.Failure? ==> after == fitted)
    ensures FitStep(fitted, inputShape, op, x, refit).0.Success? <==>
      InputError(inputShape, x).None? && (!fitted || refit) && FitError(op, x).None?
  {
  }

  /** `forward` before any `fit` raises, whatever the tensor. */
  lemma ForwardNeedsFit(inputShape: string, op: Operation, x: Tensor)
    ensures ForwardStep(false, inputShape, op, x).Failure?
    ensures InputError(inputShape, x).None? ==> ForwardStep(false, inputShape, op, x) == Failure(NotFitted(op))
  {
  }

  /** Once a `fit` returns, `forward` on a tensor of the input shape fails only when `_forward` itself raises. */
  lemma FitEnablesForward(fitted: bool, inputShape: string, op: Operation, x: Tensor, refit: bool, y: Tensor)
    requires FitStep(fitted, inputShape, op, x, refit).0.Success?
    ensures var after := FitStep(fitted, inputShape, op, x, refit).1;
      InputError(inputShape, y).None? ==>
        (ForwardStep(after, inputShape, op, y).Success? <==> ForwardError(op, y).None?)
  {
  }

  /** A second `fit` without `refit` raises, and leaves the operation fitted. */
  lemma FitTwiceNeedsRefit(fitted: bool, inputShape: string, op: Operation, x: Tensor, refit: bool, y: Tensor)
    requires FitStep(fitted, inputShape, op, x, refit).0.Success?
    requires InputError(inputShape, y).None?
    ensures var after := FitStep(fitted, inputShape, op, x, refit).1;
      FitStep(after, inputShape, op, y, false) == (Failure(ALREADY_FITTED), true)
  {
  }

  /** The operations that only store their arguments can always be fitted on a tensor of the right shape. */
  lemma NoopFitSucceeds(inputShape: string, op: Operation, x: Tensor)
    requires FitIsNoop(op) && InputError(inputShape, x).None?
    ensures FitStep(false, inputShape, op, x, false) == (Success(Unit), true)
    ensures FitStep(true, inputShape, op, x, true) == (Success(Unit), true)
  {
  }

  // ---------------------------------------------------------------------
  // The operation object
  // ---------------------------------------------------------------------

  /** The conjugate shape a `ToQuantile` keeps for its forward pass. */
  function ConjShapeOf(inputShape: string, op: Operation): Option<string>
  {
    if op.ToQuantile? && BuildConjShape(inputShape, op.normalizeShape).Success? then
      Some(BuildConjShape(inputShape, op.normalizeShape).value)
    else None
  }

  /**
   * An accepted `ToQuantile` keeps a conjugate shape of exactly two
   * groups, kept axes then reduced axes, so its two-dimension check on
   * the rearranged tensor always holds.
   */
  lemma ToQuantileConjShape(inputShape: string, op: Operation)
    requires op.ToQuantile? && ArgumentError(inputShape, op).None?
    ensures var parsed := ParseEinopsAxes(inputShape, op.normalizeShape);
      && parsed.Success? && parsed.value.1 != []
      && ConjShapeOf(inputShape, op) ==
           Some((if parsed.value.0 == [] then "1" else Group(parsed.value.0)) + " " + Group(parsed.value.1))
  {
    BuildConjShapeSpec(inputShape, op.normalizeShape);
  }

  class FeatureOperation {
    var inputShape: string
    var op: Operation
    var conjShape: Option<string>
    var isFitted: bool

    constructor (inputShape: string, op: Operation, conjShape: Option<string>)
      ensures this.inputShape == inputShape && this.op == op && this.conjShape == conjShape
      ensures !isFitted
    {
      this.inputShape := inputShape;
      this.op := op;
      this.conjShape := conjShape;
      isFitted := false;
    }

    /** `__init__` of an operation: the argument checks, then a new operation that is not yet fitted. */
    static method New(inputShape: string, op: Operation) returns (r: Result<FeatureOperation>)
      ensures r.Failure? <==> ArgumentError(inputShape, op).Some?
      ensures r.Failure? ==> r.error == ArgumentError(inputShape, op).value
      ensures r.Success? ==>
        (fresh(r.value) && !r.value.isFitted && r.value.inputShape == inputShape
         && r.value.op == op && r.value.conjShape == ConjShapeOf(inputShape, op))
    {
      var error := ArgumentError(inputShape, op);
      if error.Some? {
        return Failure(error.value);
      }
      var operation := new FeatureOperation(inputShape, op, ConjShapeOf(inputShape, op));
      return Success(operation);
    }

    /**
     * `fit`: the tensor must have the input shape; a fitted operation
     * needs `refit`; `_fit` runs, and only when it returns does the
     * operation become fitted.
     */
    method Fit(x: Tensor, refit: bool) returns (r: Result<Unit>)
      modifies this`isFitted
      ensures (r, isFitted) == FitStep(old(isFitted), inputShape, op, x, refit)
    {
      var inputError := InputError(inputShape, x);
      if inputError.Some? {
        return Failure(inputError.value);
      }
      if isFitted && !refit {
        return Failure(ALREADY_FITTED);
      }
      var fitError := FitError(op, x);
      if fitError.Some? {
        return Failure(fitError.value);
      }
      isFitted := true;
      return Success(Unit);
    }

    /** `forward`: the tensor must have the input shape and the operation must be fitted; then `_forward` runs. */
    method Forward(x: Tensor) returns (r: Result<Unit>)
      ensures r == ForwardStep(isFitted, inputShape, op, x)
    {
      var inputError := InputError(inputShape, x);
      if inputError.Some? {
        return Failure(inputError.value);
      }
      if !isFitted {
        return Failure(NotFitted(op));
      }
      if op.NonfiniteRaise? {
        var check := NonfiniteCheck(op.onNans, op.onInf, x);
        assert op == NonfiniteRaise(op.onNans, op.onInf);
        if check.Failure? {
          return Failure(check.error);
        }
        return Success(Unit);
      }
      var forwardError := ForwardError(op, x);
      if forwardError.Some? {
        return Failure(forwardError.value);
      }
      return Success(Unit);
    }
  }
}
