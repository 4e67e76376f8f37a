/** The form as plain data: its controls in document order, the entry list the
    browser's FormData builds from them, and the by-name lookup that
    `form.elements[name]` performs. */
module Fields {

  datatype Option<T> = None | Some(value: T)

  /** The `type` of a control, as far as the wizard tells them apart. */
  datatype Kind = Text | Email | TextArea | SelectOne | Checkbox | Radio

  /** One form control. `step` is the 1-based position of the step section
      holding it (0 when it sits outside every step); `defaultValue` and
      `defaultChecked` are what the markup sets. */
  datatype Field = Field(
    name: string,
    kind: Kind,
    value: string,
    checked: bool,
    required: bool,
    step: nat,
    defaultValue: string,
    defaultChecked: bool)

  /** One `(name, value)` pair of the form's data set. */
  datatype Entry = Entry(name: string, value: string)

  predicate IsChoice(f: Field) {
    f.kind == Checkbox || f.kind == Radio
  }

  /** A control contributes an entry to the data set when it has a name and,
      for a checkbox or radio button, when it is checked. */
  predicate Submits(f: Field) {
    f.name != "" && (IsChoice(f) ==> f.checked)
  }

  /** The entries of `new FormData(form)`, in document order. */
  function FormEntries(fields: seq<Field>): seq<Entry> {
    if fields == [] then []
    else
      var f := fields[|fields| - 1];
      FormEntries(fields[..|fields| - 1]) + (if Submits(f) then [Entry(f.name, f.value)] else [])
  }

  /** Forms that agree on which controls contribute an entry, and on the
      names and values of those, have the same entries. */
  lemma {:induction false} SameEntries(a: seq<Field>, b: seq<Field>)
    requires |a| == |b|
    requires forall i :: 0 <= i < |a| ==> (Submits(a[i]) <==> Submits(b[i]))
    requires forall i :: 0 <= i < |a| && Submits(a[i]) ==> a[i].name == b[i].name && a[i].value == b[i].value
    ensures FormEntries(a) == FormEntries(b)
  {
    if a != [] {
      SameEntries(a[..|a| - 1], b[..|b| - 1]);
    }
  }

  function NamesOf(fields: seq<Field>): (names: seq<string>)
    ensures |names| == |fields|
    ensures forall i :: 0 <= i < |fields| ==> names[i] == fields[i].name
  {
    seq(|fields|, i requires 0 <= i < |fields| => fields[i].name)
  }

  /** The first position at or after `from` holding `k`, or `|names|`. */
  function FirstIndexOf(names: seq<string>, k: string, from: nat): (r: nat)
    requires from <= |names|
    ensures from <= r <= |names|
    ensures r < |names| ==> names[r] == k
    ensures forall j :: from <= j < r ==> names[j] != k
    decreases |names| - from
  {
    if from == |names| then from
    else if names[from] == k then from
    else FirstIndexOf(names, k, from + 1)
  }

  /** What `form.elements[k]` yields: nothing, one control, or a list of
      several controls sharing the name. */
  datatype Named = NoControl | Lone(index: nat) | Group

  function LookUp(names: seq<string>, k: string): (r: Named)
    ensures r.NoControl? <==> k == "" || forall i :: 0 <= i < |names| ==> names[i] != k
    ensures r.Lone? ==>
      && r.index < |names| && names[r.index] == k
      && forall j :: 0 <= j < |names| && j != r.index ==> names[j] != k
    ensures r.Group? <==>
      k != "" && exists i, j :: 0 <= i < j < |names| && names[i] == k && names[j] == k
  {
    if k == "" then NoControl
    else
      var i := FirstIndexOf(names, k, 0);
      if i == |names| then NoControl
      else if FirstIndexOf(names, k, i + 1) < |names| then Group
      else Lone(i)
  }

  /** Members of the controls collection and of every object. Under one of
      these names `form.elements[k]` yields the member, not a control. */
  const MemberNames := {
    "length", "item", "namedItem", "constructor", "toString", "toLocaleString",
    "valueOf", "hasOwnProperty", "isPrototypeOf", "propertyIsEnumerable",
    "__proto__", "__defineGetter__", "__defineSetter__", "__lookupGetter__",
    "__lookupSetter__"}

  predicate AllDigits(k: string) {
    k != "" && forall i :: 0 <= i < |k| ==> '0' <= k[i] <= '9'
  }

  /** A name that `form.elements[k]` and the selector `[name="k"]` both find
      by name, as `LookUp` does. A run of digits is ruled out because the
      collection may read it as a position. Member names are ruled out. So
      are `"`, `\` and line breaks, which the selector cannot hold as written. */
  predicate ResolvesByName(k: string) {
    && !AllDigits(k)
    && k !in MemberNames
    && forall i :: 0 <= i < |k| ==>
         k[i] != '"' && k[i] != '\\' && k[i] != '\n' && k[i] != '\r' && k[i] != '\U{000C}'
  }

  /** The value of the first control named `k`, as
      `form.querySelector('[name="k"]').value` reads it. */
  function ValueNamed(fields: seq<Field>, k: string): (r: Option<string>)
    ensures r.None? <==> forall i :: 0 <= i < |fields| ==> fields[i].name != k
    ensures r.Some? ==> exists i ::
      && 0 <= i < |fields| && fields[i].name == k && fields[i].value == r.value
      && forall j :: 0 <= j < i ==> fields[j].name != k
  {
    var i := FirstIndexOf(NamesOf(fields), k, 0);
    if i == |fields| then None else Some(fields[i].value)
  }

  /** The controls as the page is served: every control has its default
      value and checked state. */
  function Markup(fields: seq<Field>): seq<Field> {
    seq(|fields|, i requires 0 <= i < |fields| =>
      fields[i].(value := fields[i].defaultValue, checked := fields[i].defaultChecked))
  }

  /** `form.reset()`: every control gets back its default checked state, and
      every control but a checkbox or radio button its default value. The
      value of a checkbox or radio button is its `value` attribute, which a
      reset leaves alone. */
  function Reset(fields: seq<Field>): seq<Field> {
    seq(|fields|, i requires 0 <= i < |fields| =>
      fields[i].(value := if IsChoice(fields[i]) then fields[i].value else fields[i].defaultValue,
                 checked := fields[i].defaultChecked))
  }

  /** A reset brings the form back to the page as served exactly when every
      checkbox and radio button still has the value the markup gave it. */
  lemma ResetIsMarkup(fields: seq<Field>)
    ensures Reset(fields) == Markup(fields) <==>
      forall i :: 0 <= i < |fields| && IsChoice(fields[i]) ==> fields[i].value == fields[i].defaultValue
  {
    if Reset(fields) == Markup(fields) {
      forall i | 0 <= i < |fields| && IsChoice(fields[i])
        ensures fields[i].value == fields[i].defaultValue
      {
        assert Reset(fields)[i] == Markup(fields)[i];
      }
    }
  }
}
