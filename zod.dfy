/**
 * The few zod schema combinators the forms use: a string with an optional trim and
 * length checks, a string literal, and an e-mail string. Each field yields either its
 * output value or the issues it raises; an object schema reports the issues of all
 * its fields, in field order, and succeeds only when every field does.
 */
module Zod {
  import opened Wrappers
  import opened Forms
  import JsString

  /** The message of an issue: a schema's own text, or zod's default for that failure. */
  datatype Message = Custom(text: string) | ExpectedString | ExpectedLiteral(literal: string)

  /** An issue, with the name of the field it was raised on. */
  datatype Issue = Issue(path: string, message: Message)

  /** A minimum and a maximum length check on a string, each with its message. */
  datatype Check = MinLength(bound: nat, message: string) | MaxLength(bound: nat, message: string)

  predicate Passes(s: string, c: Check) {
    match c
    case MinLength(n, _) => |s| >= n
    case MaxLength(n, _) => |s| <= n
  }

  /** The issues the checks raise on `s`, in check order; zod runs every check. */
  function CheckIssues(path: string, s: string, checks: seq<Check>): (issues: seq<Issue>)
    ensures issues == [] <==> forall i :: 0 <= i < |checks| ==> Passes(s, checks[i])
  {
    if checks == [] then []
    else
      var rest := CheckIssues(path, s, checks[1..]);
      if Passes(s, checks[0]) then rest else [Issue(path, Custom(checks[0].message))] + rest
  }

  /** A string schema: the value must be a string, trimmed when `trim` holds, then length-checked. */
  function StringField(path: string, v: FormValue, trim: bool, checks: seq<Check>): (r: Result<string, seq<Issue>>)
    ensures !v.Str? ==> r == Failure([Issue(path, ExpectedString)])
    ensures v.Str? ==> var s := if trim then JsString.Trim(v.s) else v.s;
      && (r.Success? <==> forall i :: 0 <= i < |checks| ==> Passes(s, checks[i]))
      && (r.Success? ==> r.value == s)
      && (r.Failure? ==> r.error == CheckIssues(path, s, checks) && r.error != [])
  {
    match v
    case Str(raw) =>
      var s := if trim then JsString.Trim(raw) else raw;
      var issues := CheckIssues(path, s, checks);
      if issues == [] then Success(s) else Failure(issues)
    case _ => Failure([Issue(path, ExpectedString)])
  }

  /**
   * A string field with a minimum `lo` (message `a`) and a maximum `hi` (message `b`), the shape of every bounded
   * field: a wrong type, too short, too long, or the (trimmed) string itself.
   */
  lemma {:induction false} MinMaxField(path: string, v: FormValue, trim: bool, lo: nat, a: string, hi: nat, b: string)
    requires lo <= hi
    ensures StringField(path, v, trim, [MinLength(lo, a), MaxLength(hi, b)]) ==
      if !v.Str? then Failure([Issue(path, ExpectedString)])
      else
        var s := if trim then JsString.Trim(v.s) else v.s;
        if |s| < lo then Failure([Issue(path, Custom(a))])
        else if |s| > hi then Failure([Issue(path, Custom(b))])
        else Success(s)
  {
    if v.Str? {
      var s := if trim then JsString.Trim(v.s) else v.s;
      var checks := [MinLength(lo, a), MaxLength(hi, b)];
      assert checks[1..] == [MaxLength(hi, b)];
      assert checks[1..][1..] == [];
      if |s| < lo {
        assert CheckIssues(path, s, checks) == [Issue(path, Custom(a))];
      } else if |s| > hi {
        assert CheckIssues(path, s, checks) == [Issue(path, Custom(b))];
      }
    }
  }

  /** A string field with only a minimum length `lo` (message `a`). */
  lemma {:induction false} MinField(path: string, v: FormValue, lo: nat, a: string)
    ensures StringField(path, v, false, [MinLength(lo, a)]) ==
      if !v.Str? then Failure([Issue(path, ExpectedString)])
      else if |v.s| < lo then Failure([Issue(path, Custom(a))])
      else Success(v.s)
  {
    var checks := [MinLength(lo, a)];
    assert checks[1..] == [];
    if v.Str? {
      assert CheckIssues(path, v.s, checks) == if |v.s| < lo then [Issue(path, Custom(a))] else [];
    }
  }

  /** A literal schema: only the string `lit` itself is accepted. */
  function LiteralField(path: string, v: FormValue, lit: string): (r: Result<string, seq<Issue>>)
    ensures r.Success? <==> v == Str(lit)
    ensures r.Success? ==> r.value == lit
    ensures r.Failure? ==> r.error == [Issue(path, ExpectedLiteral(lit))]
  {
    if v == Str(lit) then Success(lit) else Failure([Issue(path, ExpectedLiteral(lit))])
  }

  /**
   * An e-mail schema with a custom message: a string that `isEmail` accepts. zod's e-mail pattern is not
   * modelled; `isEmail` stands for it. The custom message covers every issue the
   * schema raises, a missing or non-string value included.
   */
  function EmailField(path: string, v: FormValue, isEmail: string -> bool, message: string): (r: Result<string, seq<Issue>>)
    ensures r.Success? <==> v.Str? && isEmail(v.s)
    ensures r.Success? ==> r.value == v.s
    ensures r.Failure? ==> r.error == [Issue(path, Custom(message))]
  {
    if v.Str? && isEmail(v.s) then Success(v.s) else Failure([Issue(path, Custom(message))])
  }

  /** The issues a field contributes to its object's result. */
  function IssuesOf<T>(r: Result<T, seq<Issue>>): (issues: seq<Issue>)
    ensures r.Success? ==> issues == []
  {
    if r.Failure? then r.error else []
  }

  /** The result reports issue `x`. */
  predicate Reports<T>(r: Result<T, seq<Issue>>, x: Issue) {
    r.Failure? && x in r.error
  }
}
