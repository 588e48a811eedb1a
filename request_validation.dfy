/** The rule list applied to the body of both POST /appointments and
    PUT /appointments/:id: one check per field, each failing field reported once, in
    rule order; the reason is trimmed before its length is checked. */
module RequestValidation {
  import opened Wrappers
  import opened Strings
  import opened TimeOfDay
  import opened Calendar
  import opened AppointmentModel
  import opened Environment

  /** The validator's `isLength` counts characters other than presentation selectors
      (`Strings.ValidatorLength`). */
  const MaxReasonChars: nat := 500
  const MaxNotesChars: nat := 1000

  /** A request body; an absent field is `None`. `duration` and `status` are not
      checked by the rules but an update passes them on. */
  datatype Body = Body(
    patientId: Option<string>,
    dentistId: Option<string>,
    serviceId: Option<string>,
    appointmentDate: Option<string>,
    appointmentTime: Option<string>,
    reason: Option<string>,
    notes: Option<string>,
    duration: Option<int>,
    status: Option<string>)

  /** A body the rules accepted, with the date read and the reason trimmed. */
  datatype Checked = Checked(
    patientId: string,
    dentistId: string,
    serviceId: string,
    date: Date,
    time: string,
    reason: string,
    notes: Option<string>,
    duration: Option<int>,
    status: Option<string>)

  datatype Validation = Accepted(checked: Checked) | Rejected(errors: seq<Field>)

  /** The fields the rule list checks, in its order. */
  const Rules: seq<Field> := [PatientIdField, DentistIdField, ServiceIdField, DateField, TimeField, ReasonField, NotesField]

  predicate IsMongoIdField(env: Env, v: Option<string>) {
    v.Some? && env.isMongoId(v.value)
  }

  /** Whether the body passes the rule for field `f`. A missing field fails every rule
      except the one for the optional notes. */
  predicate RuleHolds(body: Body, env: Env, f: Field) {
    match f
    case PatientIdField => IsMongoIdField(env, body.patientId)
    case DentistIdField => IsMongoIdField(env, body.dentistId)
    case ServiceIdField => IsMongoIdField(env, body.serviceId)
    case DateField => body.appointmentDate.Some? && IsIso8601(env, body.appointmentDate.value)
    case TimeField => body.appointmentTime.Some? && IsTimeString(body.appointmentTime.value)
    case ReasonField => body.reason.Some? && 1 <= ValidatorLength(Trim(body.reason.value)) <= MaxReasonChars
    case NotesField => body.notes.None? || ValidatorLength(body.notes.value) <= MaxNotesChars
    case _ => true
  }

  /** `xs` is `ys` with some entries left out and the others kept in their order. */
  predicate Subsequence(xs: seq<Field>, ys: seq<Field>)
    decreases |ys|
  {
    if xs == [] then true
    else if ys == [] then false
    else (xs[0] == ys[0] && Subsequence(xs[1..], ys[1..])) || Subsequence(xs, ys[1..])
  }

  /** No field occurs twice. */
  predicate Distinct(s: seq<Field>) {
    forall i, j :: 0 <= i < j < |s| ==> s[i] != s[j]
  }

  /** The fields of `rules`, in order, whose rule the body fails. */
  function Failing(rules: seq<Field>, body: Body, env: Env): (errs: seq<Field>)
    ensures forall f :: f in errs <==> f in rules && !RuleHolds(body, env, f)
    ensures Subsequence(errs, rules)
  {
    if rules == [] then []
    else
      var rest := Failing(rules[1..], body, env);
      if RuleHolds(body, env, rules[0]) then rest
      else
        assert ([rules[0]] + rest)[1..] == rest;
        [rules[0]] + rest
  }

  lemma {:induction false} SubsequenceMembers(xs: seq<Field>, ys: seq<Field>)
    requires Subsequence(xs, ys)
    ensures forall x :: x in xs ==> x in ys
    decreases |ys|
  {
    if xs != [] {
      if xs[0] == ys[0] && Subsequence(xs[1..], ys[1..]) {
        SubsequenceMembers(xs[1..], ys[1..]);
        assert forall x :: x in xs ==> x == xs[0] || x in xs[1..];
      } else {
        SubsequenceMembers(xs, ys[1..]);
      }
    }
  }

  /** Leaving entries out of a list without repetitions leaves one without
      repetitions. */
  lemma {:induction false} SubsequenceDistinct(xs: seq<Field>, ys: seq<Field>)
    requires Subsequence(xs, ys) && Distinct(ys)
    ensures Distinct(xs)
    decreases |ys|
  {
    if xs != [] {
      assert Distinct(ys[1..]) by {
        forall i, j | 0 <= i < j < |ys[1..]| ensures ys[1..][i] != ys[1..][j] {
          assert ys[1..][i] == ys[i + 1] && ys[1..][j] == ys[j + 1];
        }
      }
      if xs[0] == ys[0] && Subsequence(xs[1..], ys[1..]) {
        SubsequenceDistinct(xs[1..], ys[1..]);
        SubsequenceMembers(xs[1..], ys[1..]);
        forall i, j | 0 <= i < j < |xs| ensures xs[i] != xs[j] {
          assert xs[j] == xs[1..][j - 1] && xs[j] in ys[1..];
          if i > 0 {
            assert xs[i] == xs[1..][i - 1];
          } else {
            var k :| 0 <= k < |ys[1..]| && ys[1..][k] == xs[j];
            assert ys[k + 1] == xs[j];
          }
        }
      } else {
        SubsequenceDistinct(xs, ys[1..]);
      }
    }
  }

  /** What an accepted body becomes: each checked field taken from the body, the date
      read, the reason trimmed, and every value meeting its rule. */
  predicate AcceptedFrom(body: Body, env: Env, c: Checked) {
    && body.patientId == Some(c.patientId) && env.isMongoId(c.patientId)
    && body.dentistId == Some(c.dentistId) && env.isMongoId(c.dentistId)
    && body.serviceId == Some(c.serviceId) && env.isMongoId(c.serviceId)
    && body.appointmentDate.Some? && env.readDate(body.appointmentDate.value) == Some(c.date)
    && body.appointmentTime == Some(c.time) && IsTimeString(c.time)
    && body.reason.Some? && c.reason == Trim(body.reason.value) && 1 <= ValidatorLength(c.reason) <= MaxReasonChars
    && c.notes == body.notes && (c.notes.Some? ==> ValidatorLength(c.notes.value) <= MaxNotesChars)
    && c.duration == body.duration && c.status == body.status
  }

  /** Every rule holds for the body. */
  predicate PassesAll(body: Body, env: Env) {
    forall f :: f in Rules ==> RuleHolds(body, env, f)
  }

  lemma PassesAllFields(body: Body, env: Env)
    requires PassesAll(body, env)
    ensures IsMongoIdField(env, body.patientId) && IsMongoIdField(env, body.dentistId)
    ensures IsMongoIdField(env, body.serviceId)
    ensures body.appointmentDate.Some? && IsIso8601(env, body.appointmentDate.value)
    ensures body.appointmentTime.Some? && IsTimeString(body.appointmentTime.value)
    ensures body.reason.Some? && 1 <= ValidatorLength(Trim(body.reason.value)) <= MaxReasonChars
    ensures body.notes.None? || ValidatorLength(body.notes.value) <= MaxNotesChars
  {
    assert Rules[0] == PatientIdField && Rules[1] == DentistIdField && Rules[2] == ServiceIdField;
    assert Rules[3] == DateField && Rules[4] == TimeField && Rules[5] == ReasonField && Rules[6] == NotesField;
    assert RuleHolds(body, env, PatientIdField) && RuleHolds(body, env, DentistIdField);
    assert RuleHolds(body, env, ServiceIdField) && RuleHolds(body, env, DateField);
    assert RuleHolds(body, env, TimeField) && RuleHolds(body, env, ReasonField);
    assert RuleHolds(body, env, NotesField);
  }

  /** The validation step: rejected, with the failing fields in rule order, exactly when
      some rule fails; otherwise accepted with the sanitised values. */
  function Validate(body: Body, env: Env): (v: Validation)
    ensures v.Rejected? <==> !PassesAll(body, env)
    ensures v.Rejected? ==> v.errors != [] && forall f :: f in v.errors <==> f in Rules && !RuleHolds(body, env, f)
    ensures v.Rejected? ==> Subsequence(v.errors, Rules)
    ensures v.Accepted? ==> AcceptedFrom(body, env, v.checked)
  {
    var errs := Failing(Rules, body, env);
    if errs != [] then
      assert errs[0] in Rules && !RuleHolds(body, env, errs[0]);
      Rejected(errs)
    else
      PassesAllFields(body, env);
      Accepted(Checked(
        body.patientId.value, body.dentistId.value, body.serviceId.value,
        env.readDate(body.appointmentDate.value).value, body.appointmentTime.value,
        Trim(body.reason.value), body.notes, body.duration, body.status))
  }

  /** A rejected body's errors name each failing field once, in the order of the rule
      list. */
  lemma ReportedOnceInRuleOrder(body: Body, env: Env)
    requires Validate(body, env).Rejected?
    ensures Subsequence(Validate(body, env).errors, Rules)
    ensures Distinct(Validate(body, env).errors)
  {
    var errs := Validate(body, env).errors;
    RulesDistinct();
    SubsequenceDistinct(errs, Rules);
  }

  /** The position of a field in the rule list. */
  function RuleRank(f: Field): nat {
    match f
    case PatientIdField => 0
    case DentistIdField => 1
    case ServiceIdField => 2
    case DateField => 3
    case TimeField => 4
    case ReasonField => 5
    case NotesField => 6
    case _ => 7
  }

  lemma RulesDistinct()
    ensures Distinct(Rules)
  {
    forall k | 0 <= k < |Rules| ensures RuleRank(Rules[k]) == k {
      if k < 4 {
        assert k == 0 || k == 1 || k == 2 || k == 3;
      } else {
        assert k == 4 || k == 5 || k == 6;
      }
    }
  }

  /** A reason made only of whitespace trims to nothing and is rejected. */
  lemma WhitespaceReasonRejected(body: Body, env: Env)
    requires body.reason.Some? && AllSpace(body.reason.value)
    ensures Validate(body, env).Rejected? && ReasonField in Validate(body, env).errors
  {
    TrimEmptyIffAllSpace(body.reason.value);
    assert ReasonField in Rules && !RuleHolds(body, env, ReasonField);
  }

  /** A body without notes is never rejected for its notes. */
  lemma AbsentNotesAllowed(body: Body, env: Env)
    requires body.notes.None?
    ensures Validate(body, env).Rejected? ==> NotesField !in Validate(body, env).errors
  {
    assert RuleHolds(body, env, NotesField);
  }

  /** Every field but the notes is required: a body missing one is rejected and the
      error names it. Since PUT applies the same rules, an update body must carry all of
      them too. */
  lemma MissingFieldRejected(body: Body, env: Env, f: Field)
    requires f in Rules && f != NotesField
    requires match f
      case PatientIdField => body.patientId.None?
      case DentistIdField => body.dentistId.None?
      case ServiceIdField => body.serviceId.None?
      case DateField => body.appointmentDate.None?
      case TimeField => body.appointmentTime.None?
      case ReasonField => body.reason.None?
      case _ => false
    ensures Validate(body, env).Rejected? && f in Validate(body, env).errors
  {
  }

  /** An accepted time matches the schema's pattern, and an accepted reason has no
      whitespace at either end. */
  lemma AcceptedMeetsPattern(body: Body, env: Env)
    requires Validate(body, env).Accepted?
    ensures var c := Validate(body, env).checked;
      ValidTime(c.time) && !IsSpace(c.reason[0]) && !IsSpace(c.reason[|c.reason| - 1])
  {
  }

  lemma {:induction false} Utf16LengthAstral(s: string)
    requires forall i :: 0 <= i < |s| ==> s[i] as int >= 0x10000
    ensures Utf16Length(s) == 2 * |s|
  {
    if s != [] { Utf16LengthAstral(s[..|s| - 1]); }
  }

  /** A presentation selector is not whitespace, so the trim keeps it, but the rules do
      not count it: a reason made of U+FE0F alone has length 0 and is rejected, although
      the schema would accept its one UTF-16 unit. */
  lemma SelectorOnlyReasonRejected(body: Body, env: Env)
    requires body.reason == Some("\U{FE0F}")
    ensures Trim(body.reason.value) == body.reason.value && ValidReason(body.reason.value)
    ensures Validate(body, env).Rejected? && ReasonField in Validate(body, env).errors
  {
    var r := body.reason.value;
    assert !IsSpace(r[0]);
    assert Trim(r) == r;
    assert ValidatorLength(r) == ValidatorLength([]) + 0 by {
      assert r[..|r| - 1] == [];
    }
    assert ReasonField in Rules && !RuleHolds(body, env, ReasonField);
  }

  /** The rules count characters but the schema counts UTF-16 code units: a reason of
      300 characters outside the Basic Multilingual Plane passes the rules and fails the
      schema's 500-unit limit. */
  lemma RulesAndSchemaCountDifferently(body: Body, env: Env)
    requires body.reason == Some(seq(300, _ => '\U{1F600}'))
    ensures RuleHolds(body, env, ReasonField)
    ensures !ValidReason(Trim(body.reason.value))
  {
    var r := body.reason.value;
    assert !IsSpace(r[0]) && !IsSpace(r[|r| - 1]);
    assert Trim(r) == r;
    Utf16LengthAstral(r);
  }
}
