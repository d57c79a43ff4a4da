/**
 * FormValidation: on submit, every required field of an opted-in form is
 * trimmed and checked; a failing field gets the `is-invalid` marker, a
 * passing one loses it, and one failing field blocks the submission.
 */
module FormValidation {
  import opened Text
  import opened Patterns

  /** The field's `type` attribute as far as the check cares. */
  datatype FieldKind = Email | Tel | Other

  /** A form control: its `required` attribute, its type, its current value
      and whether it carries the `is-invalid` marker. */
  datatype Field = Field(required: bool, kind: FieldKind, value: string, invalid: bool)

  /** A required field passes when its trimmed value is non-empty and, for an
      email or tel field, matches that field's pattern. */
  predicate Passes(f: Field): (r: bool)
    ensures r ==> !AllSpace(f.value)
  {
    TrimEmptyIffAllSpace(f.value);
    var v := Trim(f.value);
    v != [] && (f.kind == Email ==> IsEmail(v)) && (f.kind == Tel ==> IsPhone(v))
  }

  /** A field after a validation pass: a required field is marked exactly
      when it fails, any other field is left as it was. */
  function Checked(f: Field): Field {
    if f.required then f.(invalid := !Passes(f)) else f
  }

  /** The form after a validation pass. */
  function Validated(fs: seq<Field>): (r: seq<Field>)
    ensures |r| == |fs|
    ensures forall i :: 0 <= i < |fs| ==> r[i].required == fs[i].required && r[i].kind == fs[i].kind && r[i].value == fs[i].value
    ensures forall i :: 0 <= i < |fs| && !fs[i].required ==> r[i] == fs[i]
    ensures forall i :: 0 <= i < |fs| && fs[i].required ==> (r[i].invalid <==> !Passes(fs[i]))
  {
    seq(|fs|, i requires 0 <= i < |fs| => Checked(fs[i]))
  }

  /** Whether the whole form is accepted. */
  predicate FormPasses(fs: seq<Field>) {
    forall i :: 0 <= i < |fs| && fs[i].required ==> Passes(fs[i])
  }

  /** `validateForm`: one pass over the fields, adding or removing the marker
      on each required field in the order the source does it, and folding the
      verdicts into one boolean. */
  method ValidateForm(form: array<Field>) returns (isValid: bool)
    modifies form
    ensures isValid <==> FormPasses(old(form[..]))
    ensures form[..] == Validated(old(form[..]))
  {
    ghost var before := form[..];
    isValid := true;
    var i := 0;
    while i < form.Length
      invariant i <= form.Length
      invariant CheckedUpTo(before, form[..], i)
      invariant isValid == PassesUpTo(before, i)
    {
      var input := form[i];
      ghost var current := form[..];
      if input.required {
        var marked, ok := CheckField(input);
        form[i] := marked;
        isValid := isValid && ok;
        assert form[..] == current[i := marked];
      }
      CheckedStep(before, current, i);
      i := i + 1;
    }
    CheckedAll(before, form[..]);
  }

  /** Loop state of `ValidateForm`: the first `i` fields of `current` are
      those of `before` after the check, the others are as they were. */
  ghost predicate CheckedUpTo(before: seq<Field>, current: seq<Field>, i: nat) {
    |current| == |before| && i <= |before|
    && (forall k :: 0 <= k < i ==> current[k] == Checked(before[k]))
    && (forall k :: i <= k < |before| ==> current[k] == before[k])
  }

  /** Every required field among the first `i` passes. */
  ghost predicate PassesUpTo(fs: seq<Field>, i: nat) {
    forall k :: 0 <= k < i && k < |fs| && fs[k].required ==> Passes(fs[k])
  }

  lemma CheckedStep(before: seq<Field>, current: seq<Field>, i: nat)
    requires CheckedUpTo(before, current, i) && i < |before|
    ensures CheckedUpTo(before, current[i := Checked(before[i])], i + 1)
    ensures PassesUpTo(before, i + 1) == (PassesUpTo(before, i) && (before[i].required ==> Passes(before[i])))
  {
  }

  lemma CheckedAll(before: seq<Field>, current: seq<Field>)
    requires CheckedUpTo(before, current, |before|)
    ensures current == Validated(before)
    ensures PassesUpTo(before, |before|) == FormPasses(before)
  {
  }

  /** The per-field step of `validateForm` for a required field: the marker
      is added when the trimmed value is empty and removed otherwise, then
      added again when an email or tel value fails its pattern. */
  method CheckField(input: Field) returns (marked: Field, ok: bool)
    requires input.required
    ensures ok <==> Passes(input)
    ensures marked == Checked(input)
  {
    marked := input;
    ok := true;
    var value := Trim(input.value);
    if value == [] {
      ok := false;
      marked := marked.(invalid := true);
    } else {
      marked := marked.(invalid := false);
    }
    if input.kind == Email && value != [] {
      if !IsEmail(value) {
        ok := false;
        marked := marked.(invalid := true);
      }
    }
    if input.kind == Tel && value != [] {
      if !IsPhone(value) {
        ok := false;
        marked := marked.(invalid := true);
      }
    }
  }

  /** The submit handler: the default action is suppressed exactly when the
      form does not pass. */
  method OnSubmit(form: array<Field>) returns (preventDefault: bool)
    modifies form
    ensures preventDefault <==> !FormPasses(old(form[..]))
    ensures form[..] == Validated(old(form[..]))
  {
    var ok := ValidateForm(form);
    preventDefault := !ok;
  }

  /** A required field whose value is white space only is refused, whatever its type. */
  lemma BlankRequiredFieldFails(f: Field)
    requires f.required && AllSpace(f.value)
    ensures !Passes(f)
    ensures !FormPasses([f])
    ensures Validated([f])[0].invalid
  {
    TrimEmptyIffAllSpace(f.value);
    assert [f][0] == f;
  }

  /** Validating a form a second time changes nothing and gives the same verdict. */
  lemma ValidatedIdempotent(fs: seq<Field>)
    ensures Validated(Validated(fs)) == Validated(fs)
    ensures FormPasses(Validated(fs)) == FormPasses(fs)
  {
  }

  /** A value with no white space at either end is left alone by trimming. */
  lemma TrimKeeps(s: string)
    requires s != [] && !IsSpace(s[0]) && !IsSpace(s[|s| - 1])
    ensures Trim(s) == s
  {
  }

  /** A required field passes exactly when its trimmed value matches the
      regular expression of its type, or, for any other type, is non-empty. */
  lemma PassesIffPattern(f: Field)
    ensures f.kind == Email ==> (Passes(f) <==> EmailPattern(Trim(f.value)))
    ensures f.kind == Tel ==> (Passes(f) <==> PhonePattern(Trim(f.value)))
    ensures f.kind == Other ==> (Passes(f) <==> Trim(f.value) != [])
  {
    var v := Trim(f.value);
    EmailMatchesPattern(v);
    PhoneMatchesPattern(v);
  }

  /** A required email field whose value the email recogniser accepts passes:
      such a value has no white space to trim. */
  lemma EmailFieldPasses(f: Field)
    requires f.kind == Email && IsEmail(f.value)
    ensures Passes(f)
  {
    EmailHasOneAt(f.value);
    TrimKeeps(f.value);
  }

  /** A required tel field whose value the phone recogniser accepts passes:
      such a value starts and ends with a digit. */
  lemma TelFieldPasses(f: Field)
    requires f.kind == Tel && IsPhone(f.value)
    ensures Passes(f)
  {
    PhoneDigitEnds(f.value);
    DigitNotSpace(f.value[0]);
    DigitNotSpace(f.value[|f.value| - 1]);
    TrimKeeps(f.value);
  }
}
