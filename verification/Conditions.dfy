/** Step conditions, from the parsed expression on: which outputs a condition refers to, and what it
    evaluates to in a run. */
module Conditions {
  import opened Wrappers

  datatype OutputKey = OutputKey(step: string, name: string)

  /** Output and literal values. `Encoded` is raw JSON, with what it decodes to if it does. */
  datatype Value =
    | Text(text: string)
    | Number(number: real)
    | Integer(integer: int)
    | Truth(truth: bool)
    | JsonNumber(digits: string, parsed: Option<real>)
    | Encoded(bytes: string, decoded: Option<Value>)
    | Composite(shown: string)

  datatype OutputValue = OutputValue(value: Value, sensitive: bool, redacted: bool)

  datatype Context = Context(
    success: bool,
    failure: bool,
    channelName: string,
    environmentIsProduction: bool,
    variables: map<string, string>,
    outputs: map<OutputKey, OutputValue>)

  datatype Left = LeftChannel | LeftVariable(key: string) | LeftOutput(output: OutputKey)

  datatype Operator = Equal | NotEqual

  datatype Expression =
    | Empty
    | Always
    | Success
    | Failure
    | EnvironmentProduction
    | Compare(left: Left, operator: Operator, literal: Value)

  datatype Verdict = Verdict(ready: bool, value: bool, reason: string)

  /** A condition as the parser returns it. */
  type Parsed = Result<Expression>

  function OutputReferences(parsed: Parsed): Result<seq<OutputKey>> {
    match parsed
    case Err(message) => Err(message)
    case Ok(Compare(LeftOutput(output), _, _)) => Ok([output])
    case Ok(_) => Ok([])
  }

  function ResolveLeft(left: Left, ctx: Context): Result<Value> {
    match left
    case LeftChannel => Ok(Text(ctx.channelName))
    case LeftVariable(key) => if key in ctx.variables then Ok(Text(ctx.variables[key])) else Err("variable is unavailable")
    case LeftOutput(output) =>
      if output !in ctx.outputs then Err("output is unavailable")
      else if ctx.outputs[output].sensitive || ctx.outputs[output].redacted then Err("output is sensitive")
      else Ok(ctx.outputs[output].value)
  }

  function Normalized(v: Value): Value {
    match v
    case Encoded(_, Some(decoded)) => decoded
    case Integer(i) => Number(i as real)
    case _ => v
  }

  function AsNumber(v: Value): Option<real> {
    match v
    case Number(n) => Some(n)
    case JsonNumber(_, parsed) => parsed
    case _ => None
  }

  /** Numbers compare as numbers, everything else by how it is shown. */
  function CompareValues(left: Value, right: Value, show: Value -> string): bool {
    var l, r := Normalized(left), Normalized(right);
    if AsNumber(l).Some? && AsNumber(r).Some? then AsNumber(l) == AsNumber(r) else show(l) == show(r)
  }

  function Evaluate(parsed: Parsed, ctx: Context, show: Value -> string): Result<Verdict> {
    match parsed
    case Err(message) => Err(message)
    case Ok(Empty) => Ok(Verdict(true, true, ""))
    case Ok(Always) => Ok(Verdict(true, true, ""))
    case Ok(Success) => Ok(Verdict(true, ctx.success, ""))
    case Ok(Failure) => Ok(Verdict(true, ctx.failure, ""))
    case Ok(EnvironmentProduction) => Ok(Verdict(true, ctx.environmentIsProduction, ""))
    case Ok(Compare(left, operator, literal)) =>
      match ResolveLeft(left, ctx)
      case Err(reason) => Ok(Verdict(false, false, reason))
      case Ok(value) =>
        var matched := CompareValues(value, literal, show);
        Ok(Verdict(true, if operator == NotEqual then !matched else matched, ""))
  }

  predicate Hidden(o: OutputValue) {
    o.sensitive || o.redacted
  }

  /** Two runs show one output alike: both lack it, both hide it, or both show the same value. */
  predicate SameOutput(a: Context, b: Context, key: OutputKey) {
    if key in a.outputs && key in b.outputs then
      (Hidden(a.outputs[key]) && Hidden(b.outputs[key]))
      || (!Hidden(a.outputs[key]) && !Hidden(b.outputs[key]) && a.outputs[key].value == b.outputs[key].value)
    else
      key !in a.outputs && key !in b.outputs
  }

  /** Two runs agree on everything but outputs. */
  predicate SameSetting(a: Context, b: Context) {
    a.(outputs := map[]) == b.(outputs := map[])
  }

  /** A condition sees the setting and the outputs it refers to, of hidden ones only that they are hidden. */
  lemma EvaluateSees(parsed: Parsed, a: Context, b: Context, show: Value -> string)
    requires SameSetting(a, b)
    requires OutputReferences(parsed).Ok? ==> forall key :: key in OutputReferences(parsed).value ==> SameOutput(a, b, key)
    ensures Evaluate(parsed, a, show) == Evaluate(parsed, b, show)
  {
    assert a == b.(outputs := a.outputs);
    match parsed
    case Ok(Compare(LeftOutput(output), _, _)) => assert output in OutputReferences(parsed).value;
    case _ =>
  }

  /** Inequality is the exact negation of equality, except that neither is ready without its left operand. */
  lemma NotEqualNegates(left: Left, literal: Value, ctx: Context, show: Value -> string)
    ensures var eq := Evaluate(Ok(Compare(left, Equal, literal)), ctx, show).value;
            var ne := Evaluate(Ok(Compare(left, NotEqual, literal)), ctx, show).value;
            && eq.ready == ne.ready && (eq.ready <==> eq.value != ne.value) && (!eq.ready ==> !eq.value && !ne.value)
  {
    assert Evaluate(Ok(Compare(left, Equal, literal)), ctx, show).Ok?;
  }

  // ---------------------------------------------------------------- what a condition decides

  predicate IsNumber(v: Value, x: real) {
    v == Number(x) || (v.JsonNumber? && v.parsed == Some(x))
  }

  /** The value is this number: itself, as an integer, or as the JSON it encodes. */
  predicate Denotes(v: Value, x: real) {
    || IsNumber(v, x)
    || (v.Integer? && v.integer as real == x)
    || (v.Encoded? && v.decoded.Some? && IsNumber(v.decoded.value, x))
  }

  function Shown(v: Value, show: Value -> string): string {
    if v.Encoded? && v.decoded.Some? then show(v.decoded.value)
    else if v.Integer? then show(Number(v.integer as real))
    else show(v)
  }

  /** Two numbers are alike as numbers, and everything else as shown. */
  ghost predicate Alike(l: Value, r: Value, show: Value -> string) {
    if (exists x :: Denotes(l, x)) && (exists x :: Denotes(r, x)) then exists x :: Denotes(l, x) && Denotes(r, x)
    else Shown(l, show) == Shown(r, show)
  }

  /** What the run shows on the left of a comparison. */
  predicate Operand(left: Left, ctx: Context, v: Value) {
    || (left.LeftChannel? && v == Text(ctx.channelName))
    || (left.LeftVariable? && left.key in ctx.variables && v == Text(ctx.variables[left.key]))
    || (left.LeftOutput? && left.output in ctx.outputs && !Hidden(ctx.outputs[left.output])
        && v == ctx.outputs[left.output].value)
  }

  lemma NumberOf(v: Value, x: real)
    ensures Denotes(v, x) <==> AsNumber(Normalized(v)) == Some(x)
  {
  }

  lemma CompareDecides(l: Value, r: Value, show: Value -> string)
    ensures CompareValues(l, r, show) <==> Alike(l, r, show)
  {
    forall x
      ensures Denotes(l, x) <==> AsNumber(Normalized(l)) == Some(x)
      ensures Denotes(r, x) <==> AsNumber(Normalized(r)) == Some(x)
    {
      NumberOf(l, x);
      NumberOf(r, x);
    }
    assert Shown(l, show) == show(Normalized(l)) && Shown(r, show) == show(Normalized(r));
    hide Denotes, AsNumber, Normalized, Shown;
    var a, b := AsNumber(Normalized(l)), AsNumber(Normalized(r));
    if a.Some? { assert Denotes(l, a.value); }
    if b.Some? { assert Denotes(r, b.value); }
  }

  /** What each condition decides, in terms of the run: the status conditions by how the run stands, a comparison by
      whether its operand is alike to the literal, and nothing as long as the operand is not to be had. */
  lemma EvaluateDecides(e: Expression, ctx: Context, show: Value -> string)
    ensures Evaluate(Ok(e), ctx, show).Ok?
    ensures var verdict := Evaluate(Ok(e), ctx, show).value;
            && (verdict.ready <==> (e.Compare? ==> exists v :: Operand(e.left, ctx, v)))
            && (verdict.value <==>
                  || e.Empty? || e.Always?
                  || (e.Success? && ctx.success) || (e.Failure? && ctx.failure)
                  || (e.EnvironmentProduction? && ctx.environmentIsProduction)
                  || (e.Compare? && e.operator == Equal && exists v :: Operand(e.left, ctx, v) && Alike(v, e.literal, show))
                  || (e.Compare? && e.operator == NotEqual && exists v :: Operand(e.left, ctx, v) && !Alike(v, e.literal, show)))
            && (verdict.reason == "output is sensitive" <==>
                  e.Compare? && e.left.LeftOutput? && e.left.output in ctx.outputs && Hidden(ctx.outputs[e.left.output]))
  {
    if e.Compare? {
      forall v
        ensures Operand(e.left, ctx, v) <==> ResolveLeft(e.left, ctx) == Ok(v)
        ensures CompareValues(v, e.literal, show) <==> Alike(v, e.literal, show)
      {
        CompareDecides(v, e.literal, show);
      }
      hide Operand, CompareValues, Alike;
    }
  }
}
