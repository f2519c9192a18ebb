/**
 * Validator: the Rule checks the controllers run on request values before
 * calling a service. Each check either passes or fails with an InputError
 * carrying the text the client sees.
 */
module Validator {
  import opened Errors
  import opened Schema

  /** char.IsWhiteSpace: the Unicode space, line and paragraph separators and the control characters U+0009 to U+000D and U+0085. */
  predicate IsWhiteSpace(c: char)
  {
    || c == ' ' || ('\t' <= c <= '\r') || c == '\U{0085}' || c == '\U{00A0}'
    || c == '\U{1680}' || ('\U{2000}' <= c <= '\U{200A}') || c == '\U{2028}' || c == '\U{2029}'
    || c == '\U{202F}' || c == '\U{205F}' || c == '\U{3000}'
  }

  /** string.IsNullOrWhiteSpace on a present string, scanned from the front. */
  predicate Blank(s: string)
    decreases |s|
  {
    s == [] || (IsWhiteSpace(s[0]) && Blank(s[1..]))
  }

  /** A string is blank exactly when every character is white space. */
  lemma {:induction false} BlankIffAllWhiteSpace(s: string)
    ensures Blank(s) <==> forall i :: 0 <= i < |s| ==> IsWhiteSpace(s[i])
    decreases |s|
  {
    if s != [] {
      BlankIffAllWhiteSpace(s[1..]);
      assert forall i :: 1 <= i < |s| ==> s[i] == s[1..][i - 1];
    }
  }

  /** null or white space only, as string.IsNullOrWhiteSpace sees it. */
  predicate Missing(value: Option<string>)
  {
    value.None? || Blank(value.value)
  }

  /** Required(string?, name): fails exactly when the value is null or white space only. */
  function RequiredText(value: Option<string>, name: string): (r: Outcome)
    ensures r.Fail? <==> value.None? || forall i :: 0 <= i < |value.value| ==> IsWhiteSpace(value.value[i])
    ensures r.Fail? ==> r.error == InputError(name + " is required")
  {
    if value.None? then Fail(InputError(name + " is required"))
    else
      BlankIffAllWhiteSpace(value.value);
      if Blank(value.value) then Fail(InputError(name + " is required")) else Done
  }

  /**
   * OneAtLeastRequired(values, message): fails exactly when every value is
   * null or has a white-space-only text; a value is given by its ToString.
   */
  function OneAtLeastRequired(values: seq<Option<string>>, message: string): (r: Outcome)
    ensures r.Fail? <==> forall i :: 0 <= i < |values| ==>
      values[i].None? || forall j :: 0 <= j < |values[i].value| ==> IsWhiteSpace(values[i].value[j])
    ensures r.Fail? ==> r.error == InputError(message)
  {
    AllMissingIffWhiteSpace(values);
    if forall i :: 0 <= i < |values| ==> Missing(values[i]) then Fail(InputError(message)) else Done
  }

  /** Missing, value by value, in terms of characters. */
  lemma AllMissingIffWhiteSpace(values: seq<Option<string>>)
    ensures forall i :: 0 <= i < |values| ==>
      (Missing(values[i]) <==> values[i].None? || forall j :: 0 <= j < |values[i].value| ==> IsWhiteSpace(values[i].value[j]))
  {
    forall i | 0 <= i < |values| && values[i].Some? {
      BlankIffAllWhiteSpace(values[i].value);
    }
  }

  /** Required(Guid?, name): fails exactly when the id is null or the empty Guid. */
  function RequiredId(value: Option<Id>, name: string): (r: Outcome)
    ensures r.Fail? <==> value.None? || value.value == EmptyId
    ensures r.Fail? ==> r.error == InputError(name + " is required")
  {
    if value.None? || value.value == EmptyId then Fail(InputError(name + " is required")) else Done
  }

  /** Required(bool?, name), Required(int?, name) and Required(object?, name): fail exactly when the value is null. */
  function RequiredValue<T>(value: Option<T>, name: string): (r: Outcome)
    ensures r.Fail? <==> value.None?
    ensures r.Fail? ==> r.error == InputError(name + " is required")
  {
    if value.None? then Fail(InputError(name + " is required")) else Done
  }

  /** string.Join(sep, list). */
  function Join(sep: string, list: seq<string>): (r: string)
    ensures list == [] ==> r == []
    ensures |list| == 1 ==> r == list[0]
    ensures |list| >= 1 ==> |r| == |list[0]| + |Join(sep, list[1..])| + (if |list| > 1 then |sep| else 0)
  {
    if list == [] then []
    else if |list| == 1 then list[0]
    else list[0] + sep + Join(sep, list[1..])
  }

  /** In(item, list): fails exactly when the item is not in the list, naming the list. */
  function In(item: string, list: seq<string>): (r: Outcome)
    ensures r.Fail? <==> item !in list
    ensures r.Fail? ==> r.error == InputError(item + " is not in [" + Join(",", list) + "]")
  {
    if item !in list then Fail(InputError(item + " is not in [" + Join(",", list) + "]")) else Done
  }

  /** FailIf(condition, message): fails exactly when the condition holds. */
  function FailIf(condition: bool, message: string): (r: Outcome)
    ensures r.Fail? <==> condition
    ensures r.Fail? ==> r.error == InputError(message)
  {
    if condition then Fail(InputError(message)) else Done
  }

  // ---------------------------------------------------------------- plan types

  /** PlanType.All. */
  const PlanTypes: seq<string> := ["Main", "Archived"]

  /** The text of a plan type, as stored in the type column. */
  function TypeName(t: PlanType): (r: string)
    ensures r in PlanTypes
  {
    match t
    case Main => "Main"
    case Archived => "Archived"
  }

  /** The type check of the UpdateType and ReOrder endpoints: Required, then In(type, PlanType.All). */
  function ParsePlanType(value: Option<string>): (r: Result<PlanType>)
    ensures r.Ok? <==> value.Some? && value.value in PlanTypes
    ensures r.Ok? ==> TypeName(r.value) == value.value
    ensures value.Some? && value.value !in PlanTypes && !Blank(value.value) ==>
      r == Failure(InputError(value.value + " is not in [Main,Archived]"))
  {
    if Missing(value) then
      TypeNamesNotBlank();
      Failure(InputError("type is required"))
    else if value.value == "Main" then Ok(Main)
    else if value.value == "Archived" then Ok(Archived)
    else
      PlanTypesJoined();
      Failure(In(value.value, PlanTypes).error)
  }

  /** Neither type name is blank, so a missing value is never a plan type. */
  lemma TypeNamesNotBlank()
    ensures forall n :: n in PlanTypes ==> !Blank(n)
  {
    assert "Main"[0] == 'M' && "Archived"[0] == 'A';
  }

  /** The list In names for plan types: PlanType.All joined with commas. */
  lemma PlanTypesJoined()
    ensures Join(",", PlanTypes) == "Main,Archived"
  {
    assert PlanTypes[1..] == ["Archived"];
  }

  // ---------------------------------------------------------------- properties

  /** Every plan type passes the type check and comes back unchanged. */
  lemma ParseTypeName(t: PlanType)
    ensures ParsePlanType(Some(TypeName(t))) == Ok(t)
  {
    assert !Blank(TypeName(t));
  }

  /** The empty string and strings of spaces are missing; a string with a non-space character is not. */
  lemma {:induction false} BlankExamples()
    ensures Missing(Some(""))
    ensures Missing(Some(" \t\n"))
    ensures !Missing(Some(" a "))
  {
    assert " \t\n"[1..] == "\t\n";
    assert "\t\n"[1..] == "\n";
    assert " a "[1..] == "a ";
  }
}
