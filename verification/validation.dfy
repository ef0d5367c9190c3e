/** Declarative request validation in the style of express-validator: each
    route declares a list of rules, and every violated rule is reported. */
module Validation {
  import opened Base
  import opened Http

  /** One rule, as declared with `check(field, msg)`. */
  datatype Rule =
    | NotEmpty(field: string, msg: string)             // .not().isEmpty()
    | IsEmail(field: string, msg: string)              // .isEmail()
    | MinLength(field: string, min: nat, msg: string)  // .isLength({ min })
    | Exists(field: string, msg: string)               // .exists()

  /** The string a rule inspects: an `undefined` field reads as "". */
  function Seen(body: Body, field: string): string {
    if field in body then body[field] else ""
  }

  /** Whether `body` satisfies `rule`. The e-mail syntax check is a parameter;
      the empty string is never an e-mail address. */
  predicate Passes(rule: Rule, body: Body, isEmail: string -> bool)
    ensures rule.NotEmpty? ==> (Passes(rule, body, isEmail) <==> rule.field in body && body[rule.field] != "")
    ensures rule.IsEmail? ==>
              (Passes(rule, body, isEmail) <==>
                 rule.field in body && body[rule.field] != "" && isEmail(body[rule.field]))
    ensures rule.IsEmail? && (rule.field !in body || body[rule.field] == "") ==> !Passes(rule, body, isEmail)
    ensures rule.MinLength? ==>
              (Passes(rule, body, isEmail) <==>
                 if rule.field in body then |body[rule.field]| >= rule.min else rule.min == 0)
    ensures rule.Exists? ==> (Passes(rule, body, isEmail) <==> rule.field in body)
    ensures rule.Exists? && rule.field in body && body[rule.field] == "" ==> Passes(rule, body, isEmail)
  {
    match rule
    case NotEmpty(f, _) => Seen(body, f) != ""
    case IsEmail(f, _) => Seen(body, f) != "" && isEmail(Seen(body, f))
    case MinLength(f, n, _) => |Seen(body, f)| >= n
    case Exists(f, _) => f in body
  }

  /** The error entry a violated rule contributes. */
  function ErrorOf(rule: Rule): ErrorItem {
    ErrorItem(Some(rule.field), rule.msg)
  }

  /** `validationResult(req).array()`: one entry per violated rule, in the
      order the rules are declared, without stopping at the first. */
  function Violations(rules: seq<Rule>, body: Body, isEmail: string -> bool): (errors: seq<ErrorItem>)
    ensures |errors| <= |rules|
    ensures errors == [] <==> forall i :: 0 <= i < |rules| ==> Passes(rules[i], body, isEmail)
    ensures forall i :: 0 <= i < |rules| && !Passes(rules[i], body, isEmail) ==> ErrorOf(rules[i]) in errors
    ensures forall e :: e in errors ==> exists r :: r in rules && !Passes(r, body, isEmail) && e == ErrorOf(r)
  {
    if |rules| == 0 then []
    else
      var rest := Violations(rules[1..], body, isEmail);
      assert forall i :: 1 <= i < |rules| ==> rules[i] == rules[1..][i - 1];
      if Passes(rules[0], body, isEmail) then rest else [ErrorOf(rules[0])] + rest
  }

  /** Rules are checked independently: the report for two rule lists is the
      report for the first followed by the report for the second. */
  lemma {:induction false} ViolationsConcat(a: seq<Rule>, b: seq<Rule>, body: Body, isEmail: string -> bool)
    ensures Violations(a + b, body, isEmail) == Violations(a, body, isEmail) + Violations(b, body, isEmail)
  {
    if |a| > 0 {
      assert (a + b)[0] == a[0];
      assert (a + b)[1..] == a[1..] + b;
      ViolationsStep(a + b, body, isEmail);
      ViolationsStep(a, body, isEmail);
      ViolationsConcat(a[1..], b, body, isEmail);
      var head := if Passes(a[0], body, isEmail) then [] else [ErrorOf(a[0])];
      assert head + (Violations(a[1..], body, isEmail) + Violations(b, body, isEmail))
          == (head + Violations(a[1..], body, isEmail)) + Violations(b, body, isEmail);
    } else {
      assert a + b == b;
    }
  }

  /** One step of the report: the first rule's entry, if any, then the rest.
      This is `Violations` unfolded once; it exists only to keep the proof of
      `ViolationsConcat` stable across solver seeds. */
  lemma {:induction false} ViolationsStep(rules: seq<Rule>, body: Body, isEmail: string -> bool)
    requires |rules| > 0
    ensures Violations(rules, body, isEmail)
         == (if Passes(rules[0], body, isEmail) then [] else [ErrorOf(rules[0])])
            + Violations(rules[1..], body, isEmail)
  {
  }

  /** `res.status(400).json({ errors })`. */
  function Reject(errors: seq<ErrorItem>): Failure {
    Failure(StatusBadRequest, Errors(errors))
  }
}
