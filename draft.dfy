/** The draft kept in the browser's storage under the key "wizardDraft":
    saving flattens the form's entries into one object, loading writes the
    saved values back into the controls. */
module Draft {
  import opened Fields

  /** A value of the saved object, as parsing its JSON text gives it back. */
  datatype SavedValue = Str(s: string) | Strs(items: seq<string>)

  type DraftMap = map<string, SavedValue>

  /** What the storage slot holds: nothing, text that does not parse to an
      object (including the empty string), or a parsed draft. */
  datatype Stored = NoDraft | Unreadable | Draft(saved: DraftMap)

  /** `Object.fromEntries`: a later entry overwrites an earlier one of the
      same name. */
  function FromEntries(entries: seq<Entry>): DraftMap {
    if entries == [] then map[]
    else
      var e := entries[|entries| - 1];
      FromEntries(entries[..|entries| - 1])[e.name := Str(e.value)]
  }

  /** The object `saveDraft` stores for the form. */
  function SavedDraft(fields: seq<Field>): DraftMap {
    FromEntries(FormEntries(fields))
  }

  /** The position of the last control named `k` that contributes an entry,
      or -1 when there is none. */
  function LastSubmitter(fields: seq<Field>, k: string): (r: int)
    ensures -1 <= r < |fields|
    ensures r >= 0 ==> Submits(fields[r]) && fields[r].name == k
    ensures forall j :: r < j < |fields| ==> !(Submits(fields[j]) && fields[j].name == k)
  {
    if fields == [] then -1
    else
      var f := fields[|fields| - 1];
      if Submits(f) && f.name == k then |fields| - 1
      else LastSubmitter(fields[..|fields| - 1], k)
  }

  /** Saving a form with one more control at the end: its entry, when it
      contributes one, overwrites whatever the earlier controls left under
      its name. */
  lemma SavedDraftAppend(init: seq<Field>, f: Field)
    ensures SavedDraft(init + [f]) ==
      if Submits(f) then SavedDraft(init)[f.name := Str(f.value)] else SavedDraft(init)
  {
    var fields := init + [f];
    assert fields[..|fields| - 1] == init;
    var es := FormEntries(init);
    if Submits(f) {
      var e := Entry(f.name, f.value);
      assert FormEntries(fields) == es + [e];
      assert (es + [e])[..|es|] == es;
    } else {
      assert FormEntries(fields) == es + [];
      assert es + [] == es;
    }
  }

  /** Saving keeps one value per name: a name is saved exactly when some
      control of that name contributes an entry, and its value is that of the
      last such control; the values of earlier ones are lost. */
  lemma {:induction false} SavedLastWins(fields: seq<Field>, k: string)
    ensures k in SavedDraft(fields) <==> LastSubmitter(fields, k) >= 0
    ensures k in SavedDraft(fields) ==>
      SavedDraft(fields)[k] == Str(fields[LastSubmitter(fields, k)].value)
  {
    if fields != [] {
      var init, f := fields[..|fields| - 1], fields[|fields| - 1];
      assert fields == init + [f];
      SavedLastWins(init, k);
      SavedDraftAppend(init, f);
    }
  }

  /** JavaScript's `Boolean(v)`: a string is true when it is not empty, an
      array always. */
  function Truthy(v: SavedValue): bool {
    match v
    case Str(s) => s != ""
    case Strs(_) => true
  }

  /** The test a control of a group gets: membership for an array, equality
      with `String(v)` otherwise. */
  function Matches(v: SavedValue, value: string): bool {
    match v
    case Str(s) => s == value
    case Strs(items) => value in items
  }

  /** Array `toString`: the items joined by commas. */
  function Join(items: seq<string>): string {
    if items == [] then ""
    else if |items| == 1 then items[0]
    else Join(items[..|items| - 1]) + "," + items[|items| - 1]
  }

  /** The text `input.value = v` stores. */
  function ValueText(v: SavedValue): string {
    match v
    case Str(s) => s
    case Strs(items) => Join(items)
  }

  /** A radio button of the group named `k`. */
  predicate IsRadioOf(f: Field, k: string) {
    f.kind == Radio && f.name == k
  }

  /** Whether a radio button named `k` at a position from `lo` up to, not
      including, `hi` carries a value that matches `v`. */
  predicate RadioMatchIn(fields: seq<Field>, k: string, v: SavedValue, lo: int, hi: int) {
    exists j :: lo <= j < hi && 0 <= j < |fields| && IsRadioOf(fields[j], k) && Matches(v, fields[j].value)
  }

  /** The state control `i` of the group named `k` is left in once every
      control of the group has had `checked` set to whether it matches `v`, in
      document order. Checking a radio button unchecks the other radio buttons
      of its name, so a radio button stays checked only when no later one of
      its name matches too. */
  predicate GroupChecked(fields: seq<Field>, k: string, v: SavedValue, i: nat)
    requires i < |fields|
  {
    Matches(v, fields[i].value)
    && (fields[i].kind == Radio ==> !RadioMatchIn(fields, k, v, i + 1, |fields|))
  }

  /** Widening the range by one position adds exactly that position's radio
      button to the ones that may match. */
  lemma RadioMatchInExtend(fields: seq<Field>, k: string, v: SavedValue, lo: int, hi: int)
    requires lo <= hi && 0 <= hi < |fields|
    ensures RadioMatchIn(fields, k, v, lo, hi + 1) <==>
      RadioMatchIn(fields, k, v, lo, hi) || (IsRadioOf(fields[hi], k) && Matches(v, fields[hi].value))
  {
    if IsRadioOf(fields[hi], k) && Matches(v, fields[hi].value) {
      assert lo <= hi < hi + 1;
    }
  }

  /** Only the radio buttons named `k` and their values decide the group
      rule, so two forms that agree on those agree on it. */
  lemma RadioMatchInSameRadios(a: seq<Field>, b: seq<Field>, k: string, v: SavedValue, lo: int, hi: int)
    requires |a| == |b|
    requires forall j :: 0 <= j < |a| ==> (IsRadioOf(a[j], k) <==> IsRadioOf(b[j], k))
    requires forall j :: 0 <= j < |a| && IsRadioOf(a[j], k) ==> a[j].value == b[j].value
    ensures RadioMatchIn(a, k, v, lo, hi) <==> RadioMatchIn(b, k, v, lo, hi)
  {
    if RadioMatchIn(a, k, v, lo, hi) {
      var j :| lo <= j < hi && 0 <= j < |a| && IsRadioOf(a[j], k) && Matches(v, a[j].value);
      assert IsRadioOf(b[j], k) && Matches(v, b[j].value);
    }
    if RadioMatchIn(b, k, v, lo, hi) {
      var j :| lo <= j < hi && 0 <= j < |b| && IsRadioOf(b[j], k) && Matches(v, b[j].value);
      assert IsRadioOf(a[j], k) && Matches(v, a[j].value);
    }
  }

  /** The form after `fields[j].checked = c`, as the browser's setter leaves
      it: checking a radio button that has a name unchecks every other radio
      button of that name. */
  function SetCheckedIn(fields: seq<Field>, j: nat, c: bool): seq<Field>
    requires j < |fields|
  {
    var f := fields[j];
    seq(|fields|, i requires 0 <= i < |fields| =>
      if i == j then f.(checked := c)
      else if c && f.kind == Radio && f.name != "" && IsRadioOf(fields[i], f.name)
      then fields[i].(checked := false)
      else fields[i])
  }

  /** Control `j` while the group named `k` is being set from `v`, once the
      controls of the group before position `i` have had `checked` set to
      whether they match. A radio button already set stays checked only when
      no later one set so far matched; one not yet set has been unchecked
      when a radio button set so far matched. */
  function GroupStage(fields: seq<Field>, k: string, v: SavedValue, i: nat, j: nat): Field
    requires j < |fields|
  {
    var f := fields[j];
    if f.name != k then f
    else if j < i then
      f.(checked := Matches(v, f.value) && (f.kind == Radio ==> !RadioMatchIn(fields, k, v, j + 1, i)))
    else if f.kind == Radio && RadioMatchIn(fields, k, v, 0, i) then f.(checked := false)
    else f
  }

  /** Setting control `i` of the group moves every control from one stage to
      the next: the control itself takes whether it matches, and when it is a
      matching radio button every other radio button of the name is
      unchecked. */
  lemma GroupStageStep(fields: seq<Field>, k: string, v: SavedValue, i: nat, j: nat)
    requires i < |fields| && j < |fields|
    ensures fields[i].name != k ==> GroupStage(fields, k, v, i + 1, j) == GroupStage(fields, k, v, i, j)
    ensures fields[i].name == k && j == i ==>
      GroupStage(fields, k, v, i + 1, j) == GroupStage(fields, k, v, i, j).(checked := Matches(v, fields[i].value))
    ensures fields[i].name == k && j != i ==>
      GroupStage(fields, k, v, i + 1, j) ==
        if Matches(v, fields[i].value) && IsRadioOf(fields[i], k) && IsRadioOf(fields[j], k)
        then GroupStage(fields, k, v, i, j).(checked := false)
        else GroupStage(fields, k, v, i, j)
  {
    RadioMatchInExtend(fields, k, v, 0, i);
    if j < i {
      RadioMatchInExtend(fields, k, v, j + 1, i);
    }
  }

  /** The whole form at stage `i` of setting the group named `k`. */
  function GroupStages(fields: seq<Field>, k: string, v: SavedValue, i: nat): seq<Field> {
    seq(|fields|, j requires 0 <= j < |fields| => GroupStage(fields, k, v, i, j))
  }

  /** Setting control `i` takes the form from stage `i` to stage `i + 1`, and
      the last stage is the group rule applied to every control of the
      name. */
  lemma GroupStagesStep(fields: seq<Field>, k: string, v: SavedValue, i: nat)
    requires k != "" && i < |fields|
    ensures GroupStages(fields, k, v, i + 1) ==
      if fields[i].name == k
      then SetCheckedIn(GroupStages(fields, k, v, i), i, Matches(v, fields[i].value))
      else GroupStages(fields, k, v, i)
  {
    var before, after := GroupStages(fields, k, v, i), GroupStages(fields, k, v, i + 1);
    assert before[i].name == fields[i].name && before[i].kind == fields[i].kind;
    forall j | 0 <= j < |fields|
      ensures after[j] == if fields[i].name == k
        then SetCheckedIn(before, i, Matches(v, fields[i].value))[j] else before[j]
    {
      GroupStageStep(fields, k, v, i, j);
    }
  }

  /** Control `i` after loading `d`: untouched when its name is not saved;
      otherwise, when several controls share the name, checked as the group
      rule above says; when it is alone, a checkbox takes the truth of the
      saved value and any other control takes its text. */
  function RestoredAt(fields: seq<Field>, d: DraftMap, i: nat): Field
    requires i < |fields|
  {
    var f := fields[i];
    if f.name !in d then f
    else
      match LookUp(NamesOf(fields), f.name)
      case Group => f.(checked := GroupChecked(fields, f.name, d[f.name], i))
      case Lone(_) =>
        if f.kind == Checkbox then f.(checked := Truthy(d[f.name]))
        else f.(value := ValueText(d[f.name]))
      case NoControl => f
  }

  /** The form after `loadDraft` has applied `d`. A saved key that names no
      control changes nothing; a control whose name is not saved is
      untouched; only `value` and `checked` ever change. */
  function Restore(fields: seq<Field>, d: DraftMap): (r: seq<Field>)
    ensures |r| == |fields| && NamesOf(r) == NamesOf(fields)
    ensures forall i :: 0 <= i < |fields| ==>
      r[i] == fields[i].(value := r[i].value, checked := r[i].checked)
    ensures forall i :: 0 <= i < |fields| && fields[i].name !in d ==> r[i] == fields[i]
  {
    seq(|fields|, i requires 0 <= i < |fields| => RestoredAt(fields, d, i))
  }

  /** Loading a draft with no keys changes nothing. */
  lemma RestoreNothing(fields: seq<Field>)
    ensures Restore(fields, map[]) == fields
  {
  }

  /** The effect of one saved key on the form, as the body of `loadDraft`'s
      loop applies it. */
  function ApplyKey(fields: seq<Field>, k: string, v: SavedValue): seq<Field> {
    match LookUp(NamesOf(fields), k)
    case NoControl => fields
    case Group =>
      seq(|fields|, i requires 0 <= i < |fields| =>
        if fields[i].name == k then fields[i].(checked := GroupChecked(fields, k, v, i)) else fields[i])
    case Lone(j) =>
      fields[j := if fields[j].kind == Checkbox then fields[j].(checked := Truthy(v))
                  else fields[j].(value := ValueText(v))]
  }

  /** Keys can be applied one at a time, in any order: applying `k` to the form
      restored from `d` gives the form restored from `d` with `k` added. */
  lemma RestoreAddKey(fields: seq<Field>, d: DraftMap, k: string, v: SavedValue)
    requires k !in d
    ensures Restore(fields, d[k := v]) == ApplyKey(Restore(fields, d), k, v)
  {
    var after, applied := Restore(fields, d[k := v]), ApplyKey(Restore(fields, d), k, v);
    forall i | 0 <= i < |fields|
      ensures i < |applied| && after[i] == applied[i]
    {
      RestoreAddKeyAt(fields, d, k, v, i);
    }
  }

  /** The same, one control at a time. */
  lemma RestoreAddKeyAt(fields: seq<Field>, d: DraftMap, k: string, v: SavedValue, i: nat)
    requires k !in d && i < |fields|
    ensures |ApplyKey(Restore(fields, d), k, v)| == |fields|
    ensures Restore(fields, d[k := v])[i] == ApplyKey(Restore(fields, d), k, v)[i]
  {
    if fields[i].name == k {
      AddedKeyAtOwnControl(fields, d, k, v, i);
    } else {
      AddedKeyAtOtherControl(fields, d, k, v, i);
    }
  }

  /** A control named by the added key is untouched by `d` and takes the
      key's effect. */
  lemma AddedKeyAtOwnControl(fields: seq<Field>, d: DraftMap, k: string, v: SavedValue, i: nat)
    requires k !in d && i < |fields| && fields[i].name == k
    ensures |ApplyKey(Restore(fields, d), k, v)| == |fields|
    ensures Restore(fields, d[k := v])[i] == ApplyKey(Restore(fields, d), k, v)[i]
  {
    var before := Restore(fields, d);
    var names := NamesOf(fields);
    assert NamesOf(before) == names;
    assert before[i] == fields[i];
    assert Restore(fields, d[k := v])[i] == RestoredAt(fields, d[k := v], i);
    match LookUp(names, k) {
      case NoControl =>
      case Group =>
      case Lone(j) =>
        assert j == i;
    }
  }

  /** A control under another name is restored from `d` alone and the added
      key leaves it as it was. */
  lemma AddedKeyAtOtherControl(fields: seq<Field>, d: DraftMap, k: string, v: SavedValue, i: nat)
    requires k !in d && i < |fields| && fields[i].name != k
    ensures |ApplyKey(Restore(fields, d), k, v)| == |fields|
    ensures Restore(fields, d[k := v])[i] == ApplyKey(Restore(fields, d), k, v)[i]
  {
    var before := Restore(fields, d);
    var names := NamesOf(fields);
    assert NamesOf(before) == names;
    assert Restore(fields, d[k := v])[i] == RestoredAt(fields, d[k := v], i);
    assert before[i] == RestoredAt(fields, d, i);
    match LookUp(names, k) {
      case NoControl =>
      case Group =>
      case Lone(j) =>
        assert j != i;
    }
  }

  /** Forms on which loading their own draft changes nothing: every name is
      found by name, controls that share a name are checkboxes or radio
      buttons, at most one of them is checked and no other one carries its
      value, and a checkbox alone under its name that is checked has a
      non-empty value. */
  ghost predicate Restorable(fields: seq<Field>) {
    && (forall i :: 0 <= i < |fields| && fields[i].name != "" ==> ResolvesByName(fields[i].name))
    && (forall i, j ::
          0 <= i < |fields| && 0 <= j < |fields| && i != j && fields[i].name != ""
          && fields[i].name == fields[j].name
          ==> IsChoice(fields[i]))
    && (forall i, j ::
          0 <= i < |fields| && 0 <= j < |fields| && i != j && fields[i].name != ""
          && fields[i].name == fields[j].name && fields[i].checked
          ==> !fields[j].checked && fields[j].value != fields[i].value)
    && (forall i ::
          0 <= i < |fields| && fields[i].kind == Checkbox && fields[i].checked && fields[i].name != ""
          && LookUp(NamesOf(fields), fields[i].name).Lone?
          ==> fields[i].value != "")
  }

  /** In a restorable form, every key the save writes is one the load finds
      by name. */
  lemma SavedKeysResolveByName(fields: seq<Field>)
    requires Restorable(fields)
    ensures forall k :: k in SavedDraft(fields) ==> ResolvesByName(k)
  {
    forall k | k in SavedDraft(fields)
      ensures ResolvesByName(k)
    {
      SavedLastWins(fields, k);
    }
  }

  /** Loading a form's own draft into it changes nothing, for every form of
      the shape above. The program itself loads into a fresh page instead:
      see `ReloadKeepsEntries`. */
  lemma RoundTrip(fields: seq<Field>)
    requires Restorable(fields)
    ensures Restore(fields, SavedDraft(fields)) == fields
  {
    forall i | 0 <= i < |fields|
      ensures Restore(fields, SavedDraft(fields))[i] == fields[i]
    {
      RoundTripAt(fields, i);
    }
  }

  /** The round trip, one control at a time. */
  lemma RoundTripAt(fields: seq<Field>, i: nat)
    requires Restorable(fields) && i < |fields|
    ensures RestoredAt(fields, SavedDraft(fields), i) == fields[i]
  {
    var d := SavedDraft(fields);
    var k := fields[i].name;
    if k in d {
      if LookUp(NamesOf(fields), k).Group? {
        RoundTripGroupAt(fields, i);
      } else {
        SavedLastWins(fields, k);
        var m := LastSubmitter(fields, k);
        assert d[k] == Str(fields[m].value);
        assert LookUp(NamesOf(fields), k) == Lone(i) && m == i;
      }
    }
  }

  /** In a saved group, the group rule gives every control back the checked
      state it was saved with: the last checked control matches the saved
      value and no later radio button does, and every other control of the
      group was unchecked and does not match. */
  lemma RoundTripGroupAt(fields: seq<Field>, i: nat)
    requires Restorable(fields) && i < |fields| && fields[i].name in SavedDraft(fields)
    requires LookUp(NamesOf(fields), fields[i].name).Group?
    ensures IsChoice(fields[i])
    ensures GroupChecked(fields, fields[i].name, SavedDraft(fields)[fields[i].name], i) == fields[i].checked
  {
    var d := SavedDraft(fields);
    var names := NamesOf(fields);
    var k := fields[i].name;
    SavedLastWins(fields, k);
    var m := LastSubmitter(fields, k);
    var v := fields[m].value;
    assert d[k] == Str(v);
    var a, b :| 0 <= a < b < |names| && names[a] == k && names[b] == k;
    var other := if a != i then a else b;
    assert other != i && fields[other].name == k;
    assert IsChoice(fields[i]);
    var otherOfM := if a != m then a else b;
    assert otherOfM != m && fields[otherOfM].name == k;
    assert IsChoice(fields[m]) && fields[m].checked;
    if i == m {
      forall j | i + 1 <= j < |fields| && IsRadioOf(fields[j], k)
        ensures !Matches(d[k], fields[j].value)
      {
        assert fields[j].value != v;
      }
    } else {
      assert !fields[i].checked && fields[i].value != v;
    }
  }

  /** The forms whose answers survive what the program does with a draft:
      save it, then load it into a fresh page whose controls are as the
      markup serves them. They are restorable. A checkbox or radio button
      still has the value the markup gave it. One that is unchecked under a
      name the draft does not hold is also unchecked by default, since
      loading does not touch it; under a saved name loading sets every
      control's checked state, whatever its default. A radio button alone
      under its name that is checked is checked by default, because loading
      writes its value and never checks it. */
  ghost predicate Reloadable(fields: seq<Field>) {
    && Restorable(fields)
    && (forall i :: 0 <= i < |fields| && IsChoice(fields[i]) ==> fields[i].value == fields[i].defaultValue)
    && (forall i ::
          0 <= i < |fields| && IsChoice(fields[i]) && !fields[i].checked
          && fields[i].name !in SavedDraft(fields)
          ==> !fields[i].defaultChecked)
    && (forall i ::
          0 <= i < |fields| && fields[i].kind == Radio && fields[i].checked && fields[i].name != ""
          && LookUp(NamesOf(fields), fields[i].name).Lone?
          ==> fields[i].defaultChecked)
  }

  /** Saving a reloadable form and loading the draft into the page at its
      defaults gives back the form's entries, so saving again stores the
      same draft. */
  lemma ReloadKeepsEntries(fields: seq<Field>)
    requires Reloadable(fields)
    ensures FormEntries(Restore(Markup(fields), SavedDraft(fields))) == FormEntries(fields)
    ensures SavedDraft(Restore(Markup(fields), SavedDraft(fields))) == SavedDraft(fields)
  {
    var r := Restore(Markup(fields), SavedDraft(fields));
    forall i | 0 <= i < |fields|
      ensures (Submits(r[i]) <==> Submits(fields[i]))
      ensures Submits(r[i]) ==> r[i].name == fields[i].name && r[i].value == fields[i].value
    {
      ReloadAt(fields, i);
    }
    SameEntries(r, fields);
  }

  /** The reload, one control at a time: the control contributes an entry
      exactly when it did before, with the same name and value. */
  lemma ReloadAt(fields: seq<Field>, i: nat)
    requires Reloadable(fields) && i < |fields|
    ensures |Restore(Markup(fields), SavedDraft(fields))| == |fields|
    ensures var r := Restore(Markup(fields), SavedDraft(fields));
      && (Submits(r[i]) <==> Submits(fields[i]))
      && (Submits(fields[i]) ==> r[i].name == fields[i].name && r[i].value == fields[i].value)
  {
    var d, g := SavedDraft(fields), Markup(fields);
    assert Restore(g, d)[i] == RestoredAt(g, d, i);
    var k := fields[i].name;
    if k !in d {
      ReloadUnsavedAt(fields, i);
    } else if LookUp(NamesOf(fields), k).Group? {
      ReloadGroupAt(fields, i);
    } else {
      ReloadLoneAt(fields, i);
    }
  }

  /** A control whose name is not saved contributed no entry, and at its
      defaults it still contributes none. */
  lemma ReloadUnsavedAt(fields: seq<Field>, i: nat)
    requires Reloadable(fields) && i < |fields| && fields[i].name !in SavedDraft(fields)
    ensures !Submits(fields[i])
    ensures !Submits(RestoredAt(Markup(fields), SavedDraft(fields), i))
  {
    SavedLastWins(fields, fields[i].name);
    assert RestoredAt(Markup(fields), SavedDraft(fields), i) == Markup(fields)[i];
  }

  /** A control alone under a saved name is the one that was saved, and
      loading gives it back its entry. */
  lemma ReloadLoneAt(fields: seq<Field>, i: nat)
    requires Reloadable(fields) && i < |fields| && fields[i].name in SavedDraft(fields)
    requires !LookUp(NamesOf(fields), fields[i].name).Group?
    ensures var r := RestoredAt(Markup(fields), SavedDraft(fields), i);
      && Submits(r) && Submits(fields[i])
      && r.name == fields[i].name && r.value == fields[i].value
  {
    var d, g := SavedDraft(fields), Markup(fields);
    var k := fields[i].name;
    assert NamesOf(g) == NamesOf(fields);
    SavedLastWins(fields, k);
    var m := LastSubmitter(fields, k);
    assert d[k] == Str(fields[m].value);
    assert LookUp(NamesOf(fields), k) == Lone(i) && m == i;
  }

  /** A control of a saved group keeps its value, and the group rule gives it
      back the checked state it was saved with. */
  lemma ReloadGroupAt(fields: seq<Field>, i: nat)
    requires Reloadable(fields) && i < |fields| && fields[i].name in SavedDraft(fields)
    requires LookUp(NamesOf(fields), fields[i].name).Group?
    ensures RestoredAt(Markup(fields), SavedDraft(fields), i) == fields[i]
  {
    var d, g := SavedDraft(fields), Markup(fields);
    var k := fields[i].name;
    assert NamesOf(g) == NamesOf(fields);
    RoundTripGroupAt(fields, i);
    RadioMatchInSameRadios(g, fields, k, d[k], i + 1, |fields|);
  }

  /** A radio button alone under its name is saved when checked, but loading
      writes its value and never checks it: on a fresh page where it is
      unchecked by default, the answer is lost. */
  lemma LoneRadioLostOnReload()
    ensures
      var r := Field("agree", Radio, "yes", true, false, 1, "yes", false);
      && SavedDraft([r]) == map["agree" := Str("yes")]
      && !Restore(Markup([r]), SavedDraft([r]))[0].checked
  {
    var r := Field("agree", Radio, "yes", true, false, 1, "yes", false);
    SavedDraftAppend([], r);
    assert [] + [r] == [r];
    var g, d := Markup([r]), SavedDraft([r]);
    assert NamesOf(g) == ["agree"];
    assert FirstIndexOf(["agree"], "agree", 1) == 1;
    assert Restore(g, d)[0] == RestoredAt(g, d, 0);
  }

  /** A radio group whose pre-checked button the user changed: the draft
      holds the new choice, and loading it into the page as served sets the
      checked state of every button of the group, so both come back as they
      were saved. */
  lemma ChangedDefaultGroupReloads()
    ensures
      var a := Field("r", Radio, "a", false, false, 1, "a", true);
      var b := Field("r", Radio, "b", true, false, 1, "b", false);
      Restore(Markup([a, b]), SavedDraft([a, b])) == [a, b]
  {
    var a := Field("r", Radio, "a", false, false, 1, "a", true);
    var b := Field("r", Radio, "b", true, false, 1, "b", false);
    var fs := [a, b];
    SavedDraftAppend([a], b);
    SavedDraftAppend([], a);
    assert [] + [a] == [a] && [a] + [b] == fs;
    var g, d := Markup(fs), SavedDraft(fs);
    assert d == map["r" := Str("b")];
    assert NamesOf(g) == ["r", "r"];
    assert LookUp(NamesOf(g), "r") == Group;
    assert !RadioMatchIn(g, "r", d["r"], 2, 2);
    assert IsRadioOf(g[1], "r") && Matches(d["r"], g[1].value);
    assert RadioMatchIn(g, "r", d["r"], 1, 2);
    assert RestoredAt(g, d, 0) == a;
    assert RestoredAt(g, d, 1) == b;
  }

  /** A lone radio button takes a saved value other than its own; a reset
      after a submit leaves that value in place, because it is the button's
      `value` attribute. */
  lemma WrittenRadioValueSurvivesReset()
    ensures
      var r := Field("r", Radio, "yes", false, false, 1, "yes", false);
      var loaded := Restore([r], map["r" := Str("no")]);
      loaded[0].value == "no" && Reset(loaded)[0].value == "no"
  {
    var r := Field("r", Radio, "yes", false, false, 1, "yes", false);
    var d := map["r" := Str("no")];
    assert NamesOf([r]) == ["r"];
    assert FirstIndexOf(["r"], "r", 1) == 1;
    assert Restore([r], d)[0] == RestoredAt([r], d, 0);
  }

  /** Two radio buttons of one name whose values both match a saved list:
      checking the second unchecks the first, so only the second stays
      checked. */
  lemma RadioGroupKeepsLastMatch()
    ensures
      var a := Field("r", Radio, "a", false, false, 1, "a", false);
      var b := Field("r", Radio, "b", false, false, 1, "b", false);
      Restore([a, b], map["r" := Strs(["a", "b"])]) == [a, b.(checked := true)]
  {
    var a := Field("r", Radio, "a", false, false, 1, "a", false);
    var b := Field("r", Radio, "b", false, false, 1, "b", false);
    var fs, d := [a, b], map["r" := Strs(["a", "b"])];
    assert NamesOf(fs) == ["r", "r"];
    assert LookUp(NamesOf(fs), "r") == Group;
    assert IsRadioOf(fs[1], "r") && Matches(d["r"], fs[1].value);
    assert RadioMatchIn(fs, "r", d["r"], 1, 2);
    assert !RadioMatchIn(fs, "r", d["r"], 2, 2);
    assert RestoredAt(fs, d, 0) == a;
    assert RestoredAt(fs, d, 1) == b.(checked := true);
  }

  /** Two checked checkboxes sharing a name: only the value of the second is
      saved, so loading the draft unchecks the first. */
  lemma GroupedCheckboxesKeepOnlyLast()
    ensures
      var a := Field("topics", Checkbox, "a", true, false, 1, "a", false);
      var b := Field("topics", Checkbox, "b", true, false, 1, "b", false);
      Restore([a, b], SavedDraft([a, b])) == [a.(checked := false), b]
  {
    var a := Field("topics", Checkbox, "a", true, false, 1, "a", false);
    var b := Field("topics", Checkbox, "b", true, false, 1, "b", false);
    var fs := [a, b];
    SavedLastWins(fs, "topics");
    assert LastSubmitter(fs, "topics") == 1;
    assert NamesOf(fs) == ["topics", "topics"];
    assert LookUp(NamesOf(fs), "topics") == Group;
    assert RestoredAt(fs, SavedDraft(fs), 0) == a.(checked := false);
    assert RestoredAt(fs, SavedDraft(fs), 1) == b;
  }
}
