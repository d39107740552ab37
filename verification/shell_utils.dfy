/** `take_until` from src/utils/shell_utils.py: consume an iterator up to and
    including the first element that satisfies a condition and return what is left.
    Running out of elements first raises StopIteration from `next`. */
module ShellUtils {
  import opened Wrappers

  datatype IterationError = StopIteration

  /** Index of the first element of `s` that satisfies `condition`, if any. */
  function FirstMatch<T>(s: seq<T>, condition: T -> bool): (r: Option<nat>)
    ensures r.Some? ==> r.value < |s| && condition(s[r.value])
    ensures r.Some? ==> forall j :: 0 <= j < r.value ==> !condition(s[j])
    ensures r.None? ==> forall j :: 0 <= j < |s| ==> !condition(s[j])
  {
    if s == [] then None
    else if condition(s[0]) then Some(0)
    else match FirstMatch(s[1..], condition)
      case None => None
      case Some(k) => Some(k + 1)
  }

  /** `take_until(elements, condition)`. The ghost `probed` lists the elements the
      condition was evaluated on, in order. */
  method TakeUntil<T>(elements: seq<T>, condition: T -> bool)
    returns (r: Result<seq<T>, IterationError>, ghost probed: seq<T>)
    ensures r.Success? <==> FirstMatch(elements, condition).Some?
    ensures r.Success? ==> r.value == elements[FirstMatch(elements, condition).value + 1..]
    ensures r.Success? ==> |r.value| < |elements| && r.value == elements[|elements| - |r.value|..]
    ensures r.Success? && condition(elements[0]) ==> r.value == elements[1..]
    ensures r.Success? ==> probed == elements[..FirstMatch(elements, condition).value + 1]
    ensures r.Failure? ==> probed == elements
  {
    var i := 0;
    probed := [];
    // `while i:` never stops on its own: an iterator object is always truthy.
    while true
      invariant 0 <= i <= |elements|
      invariant forall j :: 0 <= j < i ==> !condition(elements[j])
      invariant probed == elements[..i]
      decreases |elements| - i
    {
      if i == |elements| {
        return Failure(StopIteration), probed;
      }
      var e := elements[i];
      i := i + 1;
      probed := probed + [e];
      if condition(e) {
        return Success(elements[i..]), probed;
      }
    }
  }
}
