/** Step validation: the required controls of one step are scanned in
    document order and the first one that fails decides the verdict. */
module Validation {
  import opened Fields
  import opened Email

  /** The outcome of validating a step: every required control passed, or the
      position of the first one that is empty or holds a malformed address. */
  datatype Verdict = Pass | Missing(index: nat) | BadAddress(index: nat)

  /** The controls `querySelectorAll("[required]")` finds in step `n`. */
  predicate InScope(f: Field, n: nat) {
    f.step == n && f.required
  }

  /** Only `value` is tested: a required checkbox or radio button that is not
      checked still has its (non-empty) value and passes. */
  predicate IsBlank(f: Field) {
    f.value == ""
  }

  /** The address test applies only to e-mail controls that are not blank. */
  predicate HasBadAddress(f: Field) {
    f.kind == Email && !IsEmail(f.value)
  }

  predicate Passes(f: Field) {
    !IsBlank(f) && !HasBadAddress(f)
  }

  /** The verdict of the scan that starts at position `from`. */
  function Check(fields: seq<Field>, n: nat, from: nat): Verdict
    requires from <= |fields|
    decreases |fields| - from
  {
    if from == |fields| then Pass
    else
      var f := fields[from];
      if InScope(f, n) && IsBlank(f) then Missing(from)
      else if InScope(f, n) && HasBadAddress(f) then BadAddress(from)
      else Check(fields, n, from + 1)
  }

  /** Every required control of step `n` passes. */
  ghost predicate StepPasses(fields: seq<Field>, n: nat) {
    forall i :: 0 <= i < |fields| && InScope(fields[i], n) ==> Passes(fields[i])
  }

  /** The scan passes exactly when every required control from `from` on
      passes; when it fails it names the first failing control, every control
      in scope before it passed, and no later control was examined. */
  lemma {:induction false} CheckFindsFirstFault(fields: seq<Field>, n: nat, from: nat)
    requires from <= |fields|
    ensures Check(fields, n, from).Pass? <==>
      forall i :: from <= i < |fields| && InScope(fields[i], n) ==> Passes(fields[i])
    ensures Check(fields, n, from).Missing? ==>
      var i := Check(fields, n, from).index;
      && from <= i < |fields| && InScope(fields[i], n) && IsBlank(fields[i])
      && forall j :: from <= j < i && InScope(fields[j], n) ==> Passes(fields[j])
    ensures Check(fields, n, from).BadAddress? ==>
      var i := Check(fields, n, from).index;
      && from <= i < |fields| && InScope(fields[i], n) && !IsBlank(fields[i]) && HasBadAddress(fields[i])
      && forall j :: from <= j < i && InScope(fields[j], n) ==> Passes(fields[j])
    decreases |fields| - from
  {
    if from < |fields| {
      CheckFindsFirstFault(fields, n, from + 1);
    }
  }

  /** The verdict depends on the controls only up to the first failure: two
      forms that agree on every position up to and including it get the same
      verdict, whatever follows. */
  lemma {:induction false} CheckIgnoresLaterControls(a: seq<Field>, b: seq<Field>, n: nat, from: nat)
    requires from <= |a| && from <= |b|
    requires Check(a, n, from).Missing? || Check(a, n, from).BadAddress?
    requires Check(a, n, from).index < |b|
    requires forall j :: from <= j <= Check(a, n, from).index && j < |a| ==> a[j] == b[j]
    ensures Check(b, n, from) == Check(a, n, from)
    decreases |a| - from
  {
    CheckFindsFirstFault(a, n, from);
    var f := a[from];
    assert f == b[from];
    if !(InScope(f, n) && (IsBlank(f) || HasBadAddress(f))) {
      CheckIgnoresLaterControls(a, b, n, from + 1);
    }
  }
}
