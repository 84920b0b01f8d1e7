/**
 * The meaning of the request-validation chains the route files declare:
 * `body(field)` followed by sanitizers and validators. A sanitizer replaces
 * the value that later steps see and writes it back into the body; a
 * validator records an error when its test fails; `optional()` skips the
 * whole chain when the field is absent. A handler later only asks whether any
 * error was recorded. The library validators `isEmail` and `isURL` are
 * parameters.
 */
module Validation {
  import Text
  import opened Wrappers

  /** The two library validators whose definitions are not part of this model. */
  datatype Validators = Validators(isEmail: string -> bool, isURL: string -> bool)

  datatype Step =
    | Trim                                 // .trim()
    | IsLength(min: nat, max: MaxLength)   // .isLength({ min, max })
    | MatchesWordChars                     // .matches(/^[a-zA-Z0-9_]+$/)
    | IsEmail                              // .isEmail()
    | IsURL                                // .isURL()
    | NotEmpty                             // .notEmpty()

  datatype MaxLength = Unbounded | AtMost(n: nat)

  /** The body fields the chains name (`body('username')`, ...). */
  datatype Field = Username | Email | Password | FirstName | LastName | Bio | Avatar

  /** `body(field)`, optionally `.optional()`, then `steps` in order. */
  datatype FieldChain = FieldChain(field: Field, optional: bool, steps: seq<Step>)

  /** The request body: the fields present and their values. */
  type Body = map<Field, string>

  /** Whether a validator step accepts `value`; a sanitizer always does. */
  predicate Passes(step: Step, value: string, v: Validators) {
    match step
    case Trim => true
    case IsLength(min, max) =>
      min <= Text.CountedLength(value) && (max.AtMost? ==> Text.CountedLength(value) <= max.n)
    case MatchesWordChars => |value| > 0 && forall i :: 0 <= i < |value| ==> Text.IsWordChar(value[i])
    case IsEmail => v.isEmail(value)
    case IsURL => v.isURL(value)
    case NotEmpty => value != ""
  }

  /** The value after a step: only `trim()` changes it. */
  function Sanitize(step: Step, value: string): string {
    if step.Trim? then Text.Trim(value) else value
  }

  /** Whether every validator of `steps` accepts the value it sees. */
  predicate StepsPass(steps: seq<Step>, value: string, v: Validators) {
    steps == [] || (Passes(steps[0], value, v) && StepsPass(steps[1..], Sanitize(steps[0], value), v))
  }

  /** The value the sanitizers of `steps` leave. */
  function Sanitized(steps: seq<Step>, value: string): string {
    if steps == [] then value else Sanitized(steps[1..], Sanitize(steps[0], value))
  }

  /** A chain of one step: its validator's verdict, and its sanitizer's value. */
  lemma OneStep(a: Step, value: string, v: Validators)
    ensures StepsPass([a], value, v) == Passes(a, value, v)
    ensures Sanitized([a], value) == Sanitize(a, value)
  {
    assert [a][1..] == [];
  }

  /** A chain of two steps: the second sees what the first leaves. */
  lemma TwoSteps(a: Step, b: Step, value: string, v: Validators)
    ensures StepsPass([a, b], value, v) == (Passes(a, value, v) && Passes(b, Sanitize(a, value), v))
    ensures Sanitized([a, b], value) == Sanitize(b, Sanitize(a, value))
  {
    assert [a, b][1..] == [b];
    OneStep(b, Sanitize(a, value), v);
  }

  /** A chain of three steps, each seeing what the ones before it leave. */
  lemma ThreeSteps(a: Step, b: Step, c: Step, value: string, v: Validators)
    ensures var x := Sanitize(a, value);
            StepsPass([a, b, c], value, v) == (Passes(a, value, v) && Passes(b, x, v) && Passes(c, Sanitize(b, x), v))
    ensures Sanitized([a, b, c], value) == Sanitize(c, Sanitize(b, Sanitize(a, value)))
  {
    assert [a, b, c][1..] == [b, c];
    TwoSteps(b, c, Sanitize(a, value), v);
  }

  /** What one chain or a route's chains decide: no error recorded, and the sanitized body. */
  datatype Outcome = Outcome(ok: bool, body: Body)

  /** What a validator sees for a field: an absent field reads as the empty string. */
  function Read(body: Body, field: Field): string {
    if field in body then body[field] else ""
  }

  /** An optional field as the handler destructures it. */
  function Lookup(body: Body, field: Field): Option<string> {
    if field in body then Some(body[field]) else None
  }

  /** An optional trimmed field as the handler receives it. */
  function TrimmedField(body: Body, field: Field): Option<string> {
    if field in body then Some(Text.Trim(body[field])) else None
  }

  /** One chain: whether it records no error, and the body as it leaves it. */
  function RunChain(chain: FieldChain, body: Body, v: Validators): Outcome {
    if chain.optional && chain.field !in body then Outcome(true, body)
    else
      var value := Read(body, chain.field);
      Outcome(StepsPass(chain.steps, value, v),
              if chain.field in body then body[chain.field := Sanitized(chain.steps, value)] else body)
  }

  /** All chains of a route in order: whether no error was recorded, and the sanitized body. */
  function RunAll(chains: seq<FieldChain>, body: Body, v: Validators): Outcome {
    if chains == [] then Outcome(true, body)
    else
      var first := RunChain(chains[0], body, v);
      var rest := RunAll(chains[1..], first.body, v);
      Outcome(first.ok && rest.ok, rest.body)
  }

  /**
   * `body(field).optional().trim().isLength({ max })`, as a predicate on the
   * raw field: absent, or at most `max` counted characters once trimmed.
   */
  predicate OptionalTrimmedAtMost(body: Body, field: Field, max: nat) {
    field !in body || Text.CountedLength(Text.Trim(body[field])) <= max
  }

  /** The sanitized value of an optional trimmed field: absent stays absent. */
  function TrimmedIfPresent(body: Body, field: Field): Body {
    if field in body then body[field := Text.Trim(body[field])] else body
  }

  /** Trimming one field leaves every other field as it was. */
  lemma TrimmedIfPresentFrame(body: Body, field: Field)
    ensures var b := TrimmedIfPresent(body, field);
      && (field in b <==> field in body)
      && (field in body ==> b[field] == Text.Trim(body[field]))
      && forall g :: g != field ==> (g in b <==> g in body) && (g in body ==> b[g] == body[g])
  {
  }

  /** What the handler reads from a body in which one field was trimmed. */
  lemma LookupAfterTrim(body: Body, field: Field, g: Field)
    ensures Lookup(TrimmedIfPresent(body, field), g) == if g == field then TrimmedField(body, g) else Lookup(body, g)
    ensures g != field ==> TrimmedField(TrimmedIfPresent(body, field), g) == TrimmedField(body, g)
  {
    TrimmedIfPresentFrame(body, field);
  }

  /** The chain `body(field).optional().trim().isLength({ max })`. */
  function OptionalTrimmedChain(field: Field, max: nat): FieldChain {
    FieldChain(field, true, [Trim, IsLength(0, AtMost(max))])
  }

  /** What the optional trimmed chain decides and writes back. */
  lemma OptionalTrimmedChainMeaning(field: Field, max: nat, body: Body, v: Validators)
    ensures RunChain(OptionalTrimmedChain(field, max), body, v)
            == Outcome(OptionalTrimmedAtMost(body, field, max), TrimmedIfPresent(body, field))
  {
    if field in body {
      TwoSteps(Trim, IsLength(0, AtMost(max)), body[field], v);
    }
  }
}
