/** The instruction formatter `formatInstructions`
    (src/store/recipeStore.ts:57-74): it turns the loosely typed
    `recipeInstructions` value of a fetched record into one string. */
module Instructions {
  import opened Wrappers
  import opened Text

  /** The JavaScript values the formatter can meet. `Obj` is an object whose
      `text` property is a string (`Some`) or missing (`None`); an object
      whose `text` is some other falsy value behaves as `Obj(None)`. `Other`
      is a number, a boolean or a function. An object whose `text` is a
      truthy non-string, such as `{text: 5}`, is outside this datatype. */
  datatype Raw =
    | Str(s: string)
    | Arr(items: seq<Raw>)
    | Obj(text: Option<string>)
    | Null
    | Undefined
    | Other

  const NotAvailable := "Instructions not available"

  /** `typeof step === "object" && step.text` is truthy: an object with a
      non-empty `text`. */
  predicate IsTextStep(v: Raw)
  {
    v.Obj? && v.text.Some? && v.text.value != ""
  }

  /** `typeof step === "string"`. */
  predicate IsStringStep(v: Raw)
  {
    v.Str?
  }

  /** The first `every` reads `step.text` of each element until one fails the
      test; on `null` (whose `typeof` is "object") that read raises a
      `TypeError`. */
  predicate StepsThrow(items: seq<Raw>)
    decreases |items|
  {
    |items| > 0 && (items[0].Null? || (IsTextStep(items[0]) && StepsThrow(items[1..])))
  }

  /** The formatter raises instead of returning when `v` is an array with a
      `null` that comes after text steps only. Only an array holding a `null`
      can raise, and an array that starts with `null` always does. */
  predicate Throws(v: Raw)
    ensures Throws(v) ==> v.Arr? && exists k :: 0 <= k < |v.items| && v.items[k].Null?
    ensures v.Arr? && |v.items| > 0 && v.items[0].Null? ==> Throws(v)
  {
    if v.Arr? then StepsThrowAt(v.items); StepsThrow(v.items) else false
  }

  /** `StepsThrow` in other words: some element is `null` and every element
      before it is a text step. */
  lemma {:induction false} StepsThrowAt(items: seq<Raw>)
    ensures StepsThrow(items) <==>
            exists k :: 0 <= k < |items| && items[k].Null? &&
                        forall j :: 0 <= j < k ==> IsTextStep(items[j])
  {
    if |items| > 0 {
      StepsThrowAt(items[1..]);
      if StepsThrow(items) && !items[0].Null? {
        var k :| 0 <= k < |items[1..]| && items[1..][k].Null? &&
                 forall j :: 0 <= j < k ==> IsTextStep(items[1..][j]);
        assert items[k + 1].Null?;
        assert forall j :: 0 <= j < k + 1 ==> IsTextStep(items[j]) by {
          forall j | 0 <= j < k + 1 ensures IsTextStep(items[j]) {
            if j > 0 { assert items[j] == items[1..][j - 1]; }
          }
        }
      }
      if k :| 0 <= k < |items| && items[k].Null? && forall j :: 0 <= j < k ==> IsTextStep(items[j]) {
        if k > 0 {
          assert IsTextStep(items[0]);
          assert items[1..][k - 1].Null?;
          assert forall j :: 0 <= j < k - 1 ==> IsTextStep(items[1..][j]) by {
            forall j | 0 <= j < k - 1 ensures IsTextStep(items[1..][j]) {
              assert items[1..][j] == items[j + 1];
            }
          }
        }
      }
    }
  }

  /** Only a `null` element can make the formatter raise. */
  lemma {:induction false} NoNullNoThrow(items: seq<Raw>)
    requires forall i :: 0 <= i < |items| ==> !items[i].Null?
    ensures !Throws(Arr(items))
  {
    StepsThrowAt(items);
  }

  predicate AllTextSteps(items: seq<Raw>)
  {
    forall i :: 0 <= i < |items| ==> IsTextStep(items[i])
  }

  predicate AllStringSteps(items: seq<Raw>)
  {
    forall i :: 0 <= i < |items| ==> IsStringStep(items[i])
  }

  /** `instructions.map(step => step.text)` of an array of text steps. */
  function Texts(items: seq<Raw>): (texts: seq<string>)
    requires AllTextSteps(items)
    ensures |texts| == |items|
    ensures forall i :: 0 <= i < |items| ==> items[i] == Obj(Some(texts[i])) && texts[i] != ""
  {
    seq(|items|, i requires 0 <= i < |items| => items[i].text.value)
  }

  /** The strings of an array of strings. */
  function Strings(items: seq<Raw>): (strs: seq<string>)
    requires AllStringSteps(items)
    ensures |strs| == |items|
    ensures forall i :: 0 <= i < |items| ==> items[i] == Str(strs[i])
  {
    seq(|items|, i requires 0 <= i < |items| => items[i].s)
  }

  /** `formatInstructions(v)`. The branches are tried in the source's order:
      an array of text steps (an empty array among them) gives the texts
      joined by newlines; an array of strings gives the strings joined by
      newlines; a string is returned unchanged; every other value, a mixed
      array included, gives the fixed "not available" text. */
  function FormatInstructions(v: Raw): (r: string)
    requires !Throws(v)
    ensures v.Str? ==> r == v.s
    ensures v.Arr? && AllTextSteps(v.items) ==> r == Join(Texts(v.items), "\n")
    ensures v.Arr? && |v.items| > 0 && AllStringSteps(v.items) ==> r == Join(Strings(v.items), "\n")
    ensures v == Arr([]) ==> r == ""
    ensures !v.Str? && !(v.Arr? && (AllTextSteps(v.items) || AllStringSteps(v.items))) ==>
              r == NotAvailable
  {
    if v.Arr? && AllTextSteps(v.items) then
      Join(Texts(v.items), "\n")
    else if v.Arr? && AllStringSteps(v.items) then
      Join(Strings(v.items), "\n")
    else if v.Str? then
      v.s
    else
      NotAvailable
  }

  /** A non-empty array with a step of each kind is described by neither
      array branch, so it gives the "not available" text. */
  lemma MixedStepsNotAvailable(items: seq<Raw>, i: nat, j: nat)
    requires i < |items| && j < |items|
    requires IsStringStep(items[i]) && IsTextStep(items[j])
    ensures !Throws(Arr(items)) ==> FormatInstructions(Arr(items)) == NotAvailable
  {
  }

  /** The steps are recoverable from the formatted text: splitting it on
      newlines gives the step texts back when there is at least one step and
      no step itself contains a newline. */
  lemma FormatSplitsIntoTextSteps(items: seq<Raw>)
    requires |items| > 0 && AllTextSteps(items)
    requires forall i :: 0 <= i < |items| ==> '\n' !in items[i].text.value
    ensures !Throws(Arr(items)) && Split(FormatInstructions(Arr(items)), '\n') == Texts(items)
  {
    NoNullNoThrow(items);
    SplitJoin(Texts(items), '\n');
  }

  /** The same for an array of strings. */
  lemma FormatSplitsIntoStringSteps(items: seq<Raw>)
    requires |items| > 0 && AllStringSteps(items)
    requires forall i :: 0 <= i < |items| ==> '\n' !in items[i].s
    ensures !Throws(Arr(items)) && Split(FormatInstructions(Arr(items)), '\n') == Strings(items)
  {
    NoNullNoThrow(items);
    assert !IsTextStep(items[0]);
    SplitJoin(Strings(items), '\n');
  }
}
