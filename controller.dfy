/** The wizard controller: the current step, the page elements it drives, the
    form's controls and the storage slot of the draft, with the handlers of
    the Previous, Next and Save buttons, the Enter key and the form's submit. */
module Controller {
  import opened Fields
  import opened Email
  import opened Validation
  import opened Summary
  import opened Draft

  datatype Severity = Warn | Error

  /** The alert box: hidden, or showing a message in one of two styles. */
  datatype Alert = Hidden | Shown(message: string, severity: Severity)

  /** What the POST to the form endpoint comes back with: an answer whose
      status is or is not a success, or a thrown network error. */
  datatype Response = Answered(ok: bool) | Thrown

  /** How a submit ended: dropped before anything was sent (the anti-spam
      field is filled in, or missing), sent, or failed. */
  datatype SubmitOutcome = Dropped | Sent | Failed

  const MissingMessage := "Preencha os campos obrigatórios antes de continuar."
  const InvalidEmailMessage := "Informe um e\U{2011}mail válido."
  const SavedMessage := "Rascunho salvo neste navegador."
  const SentMessage := "Enviado com sucesso! Em breve entrarei em contato."
  const FailedMessage := "Não foi possível enviar agora. Tente novamente em instantes."

  /** The name of the anti-spam field that people never fill in. */
  const HoneypotName := "_gotcha"

  /** The alert validation leaves: none when the step passes, a warning for an
      empty control, an error for a malformed address. */
  function AlertFor(v: Verdict): Alert {
    match v
    case Pass => Hidden
    case Missing(_) => Shown(MissingMessage, Warn)
    case BadAddress(_) => Shown(InvalidEmailMessage, Error)
  }

  function Max(a: int, b: int): int { if a < b then b else a }
  function Min(a: int, b: int): int { if a < b then a else b }

  /** Everything a handler may change, for stating what it leaves alone. */
  datatype Snapshot = Snapshot(
    current: nat, stepHidden: seq<bool>, progress: real,
    prevDisabled: bool, nextHidden: bool, submitHidden: bool,
    alert: Alert, review: seq<Entry>, fields: seq<Field>, stored: Stored)

  class Wizard {
    /** N: the step sections are tagged 1 to N. */
    const stepCount: nat
    /** The switch between posting to the endpoint and the other delivery path. */
    const useEmailJs: bool

    /** The step on show. */
    var current: nat
    /** Whether step section i + 1 carries the `hidden` class. */
    var stepHidden: seq<bool>
    /** The width of the progress bar, in percent. */
    var progress: real
    var prevDisabled: bool
    var nextHidden: bool
    var submitHidden: bool
    var alert: Alert
    /** The rows of the review summary. */
    var review: seq<Entry>
    /** The form's controls, in document order. */
    var fields: seq<Field>
    /** The storage slot "wizardDraft". */
    var stored: Stored

    /** The page shows step `n`: that section alone is visible, the progress
        bar is at n/N, Previous is disabled on the first step, and on the last
        step Next is hidden and Submit is shown. */
    ghost predicate Shows(n: nat)
      reads this
    {
      && 1 <= stepCount
      && |stepHidden| == stepCount
      && (forall i :: 0 <= i < stepCount ==> stepHidden[i] == (i + 1 != n))
      && progress == 100.0 * (n as real) / (stepCount as real)
      && prevDisabled == (n == 1)
      && nextHidden == (n == stepCount)
      && submitHidden == (n != stepCount)
    }

    ghost predicate Valid()
      reads this
    {
      1 <= current <= stepCount && Shows(current)
    }

    ghost function View(): Snapshot
      reads this
    {
      Snapshot(current, stepHidden, progress, prevDisabled, nextHidden, submitHidden,
               alert, review, fields, stored)
    }

    /** The page script's start: load the draft, then show the first step. */
    constructor (controls: seq<Field>, stepCount: nat, useEmailJs: bool, stored: Stored)
      requires 1 <= stepCount
      ensures Valid() && current == 1 && alert == Hidden
      ensures this.stepCount == stepCount && this.useEmailJs == useEmailJs && this.stored == stored
      ensures fields == if stored.Draft? then Restore(controls, stored.saved) else controls
      ensures review == if stepCount == 1 then Review(FormEntries(fields)) else []
    {
      this.stepCount := stepCount;
      this.useEmailJs := useEmailJs;
      this.stored := stored;
      fields := controls;
      current := 1;
      stepHidden := [];
      progress := 0.0;
      prevDisabled, nextHidden, submitHidden := false, false, true;
      alert := Hidden;
      review := [];
      new;
      LoadDraft();
      ShowStep(1);
    }

    method ShowStep(n: nat)
      requires 1 <= n <= stepCount
      modifies this
      ensures Valid() && current == n
      ensures alert == Hidden
      ensures review == if n == stepCount then Review(FormEntries(fields)) else old(review)
      ensures fields == old(fields) && stored == old(stored)
    {
      current := n;
      stepHidden := seq(stepCount, i => i + 1 != n);
      progress := 100.0 * (n as real) / (stepCount as real);
      prevDisabled := n == 1;
      nextHidden := n == stepCount;
      submitHidden := n != stepCount;
      alert := Hidden;
      if n == stepCount {
        BuildReview();
      }
    }

    /** Scans the required controls of step `n` in document order and stops at
        the first that is empty or holds a malformed address. */
    method ValidateStep(n: nat) returns (ok: bool)
      requires 1 <= n <= stepCount
      modifies this`alert
      ensures ok <==> StepPasses(fields, n)
      ensures alert == AlertFor(Check(fields, n, 0))
    {
      CheckFindsFirstFault(fields, n, 0);
      var i := 0;
      while i < |fields|
        invariant 0 <= i <= |fields|
        invariant Check(fields, n, i) == Check(fields, n, 0)
      {
        var field := fields[i];
        if field.step == n && field.required {
          if field.value == "" || (field.kind == SelectOne && field.value == "") {
            alert := Shown(MissingMessage, Warn);
            return false;
          }
          if field.kind == Email && !IsEmail(field.value) {
            alert := Shown(InvalidEmailMessage, Error);
            return false;
          }
        }
        i := i + 1;
      }
      alert := Hidden;
      return true;
    }

    /** Rebuilds the review summary from the form's current entries. */
    method BuildReview()
      modifies this`review
      ensures review == Review(FormEntries(fields))
    {
      var data := FormEntries(fields);
      var out := [];
      for i := 0 to |data|
        invariant out == Review(data[..i])
      {
        var e := data[i];
        assert data[..i + 1] == data[..i] + [e];
        if e.name in TechnicalNames || e.value == "" {
          continue;
        }
        out := out + [e];
      }
      assert data[..|data|] == data;
      review := out;
    }

    method SaveDraft()
      modifies this`stored, this`alert
      ensures stored == Draft(SavedDraft(fields))
      ensures alert == Shown(SavedMessage, Warn)
    {
      stored := Draft(SavedDraft(fields));
      alert := Shown(SavedMessage, Warn);
    }

    /** The `checked` setter of control `j`: checking a radio button that has
        a name unchecks every other radio button of that name. */
    method SetChecked(j: nat, c: bool)
      requires j < |fields|
      modifies this`fields
      ensures fields == SetCheckedIn(old(fields), j, c)
    {
      var f, all := fields[j], fields;
      if c && f.kind == Radio && f.name != "" {
        fields := seq(|all|, i requires 0 <= i < |all| =>
          if IsRadioOf(all[i], f.name) then all[i].(checked := false) else all[i]);
      }
      fields := fields[j := f.(checked := c)];
    }

    /** Sets `checked` on each control named `k`, in document order, to
        whether its value matches `v`. Of the radio buttons, only the last
        that matches stays checked. */
    method CheckGroup(k: string, v: SavedValue)
      requires k != ""
      modifies this`fields
      ensures |fields| == |old(fields)|
      ensures forall i :: 0 <= i < |fields| ==>
        fields[i] == if old(fields)[i].name == k
                     then old(fields)[i].(checked := GroupChecked(old(fields), k, v, i))
                     else old(fields)[i]
    {
      ghost var original := fields;
      assert GroupStages(original, k, v, 0) == original;
      var i := 0;
      while i < |fields|
        invariant 0 <= i <= |original|
        invariant fields == GroupStages(original, k, v, i)
      {
        GroupStagesStep(original, k, v, i);
        if fields[i].name == k {
          SetChecked(i, Matches(v, fields[i].value));
        }
        i := i + 1;
      }
    }

    /** Writes a readable draft back into the controls, one saved key at a
        time; a missing or unreadable draft changes nothing. */
    method LoadDraft()
      modifies this`fields
      ensures fields == if stored.Draft? then Restore(old(fields), stored.saved) else old(fields)
    {
      if !stored.Draft? {
        return;
      }
      var d := stored.saved;
      ghost var original := fields;
      RestoreNothing(original);
      assert d - d.Keys == map[];
      var pending := d.Keys;
      while pending != {}
        invariant pending <= d.Keys
        invariant fields == Restore(original, d - pending)
        decreases pending
      {
        var k :| k in pending;
        var v := d[k];
        ghost var before := fields;
        RestoreAddKey(original, d - pending, k, v);
        assert (d - pending)[k := v] == d - (pending - {k});
        match LookUp(NamesOf(fields), k) {
          case NoControl =>
          case Group =>
            CheckGroup(k, v);
            assert fields == ApplyKey(before, k, v);
          case Lone(j) =>
            if fields[j].kind == Checkbox {
              fields := fields[j := fields[j].(checked := Truthy(v))];
            } else {
              fields := fields[j := fields[j].(value := ValueText(v))];
            }
        }
        pending := pending - {k};
      }
      assert d - {} == d;
    }

    method Prev()
      requires Valid()
      modifies this
      ensures Valid() && alert == Hidden
      ensures current == if old(current) == 1 then 1 else old(current) - 1
      ensures review == if current == stepCount then Review(FormEntries(fields)) else old(review)
      ensures fields == old(fields) && stored == old(stored)
    {
      ShowStep(Max(1, current - 1));
    }

    /** Moves on only when the step on show passes validation. */
    method Next()
      requires Valid()
      modifies this
      ensures Valid() && fields == old(fields) && stored == old(stored)
      ensures StepPasses(fields, old(current)) ==>
        && current == (if old(current) == stepCount then stepCount else old(current) + 1)
        && alert == Hidden
        && review == if current == stepCount then Review(FormEntries(fields)) else old(review)
      ensures !StepPasses(fields, old(current)) ==>
        && View() == old(View()).(alert := alert)
        && alert == AlertFor(Check(fields, current, 0))
    {
      var ok := ValidateStep(current);
      if !ok {
        return;
      }
      ShowStep(Min(stepCount, current + 1));
    }

    /** Enter anywhere but in a text area is kept from submitting the form and,
        before the last step, acts as Next. */
    method KeyDown(key: string, onTextArea: bool) returns (prevented: bool)
      requires Valid()
      modifies this
      ensures Valid()
      ensures prevented <==> key == "Enter" && !onTextArea
      ensures !prevented || old(current) == stepCount ==> View() == old(View())
      ensures prevented && old(current) < stepCount && StepPasses(fields, old(current)) ==>
        && current == old(current) + 1 && alert == Hidden
        && fields == old(fields) && stored == old(stored)
        && review == if current == stepCount then Review(FormEntries(fields)) else old(review)
      ensures prevented && old(current) < stepCount && !StepPasses(fields, old(current)) ==>
        View() == old(View()).(alert := alert) && alert == AlertFor(Check(fields, current, 0))
    {
      prevented := false;
      if key == "Enter" {
        if !onTextArea {
          prevented := true;
          if current < stepCount {
            Next();
          }
        }
      }
    }

    /** One submit: dropped when the anti-spam field is filled in; otherwise a
        single delivery attempt, after which the draft is deleted, the form
        reset and the first step shown, or else an error is shown and nothing
        else changes. */
    method Submit(response: Response) returns (outcome: SubmitOutcome, posted: bool)
      requires Valid()
      modifies this
      ensures Valid()
      ensures outcome == Dropped <==> ValueNamed(old(fields), HoneypotName) != Some("")
      ensures posted <==> outcome != Dropped && !useEmailJs
      ensures outcome == Sent <==> outcome != Dropped && (useEmailJs || response == Answered(true))
      ensures outcome == Dropped ==> View() == old(View())
      ensures outcome == Sent ==>
        && stored == NoDraft && fields == Reset(old(fields)) && current == 1
        && alert == Shown(SentMessage, Warn)
        && review == if stepCount == 1 then Review(FormEntries(fields)) else old(review)
      ensures outcome == Failed ==>
        View() == old(View()).(alert := Shown(FailedMessage, Error))
    {
      var hp := ValueNamed(fields, HoneypotName);
      if hp.None? || hp.value != "" {
        return Dropped, false;
      }
      var delivered: bool;
      if !useEmailJs {
        posted := true;
        delivered := response.Answered? && response.ok;
      } else {
        posted := false;
        delivered := true;
      }
      if delivered {
        stored := NoDraft;
        fields := Reset(fields);
        ShowStep(1);
        alert := Shown(SentMessage, Warn);
        outcome := Sent;
      } else {
        alert := Shown(FailedMessage, Error);
        outcome := Failed;
      }
    }
  }
}
