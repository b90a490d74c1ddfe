/** The six-value state a booking list is filtered by, and the two parsers of the
    state query parameter: the earlier `BookingState.from` (case-insensitive
    comparison with each name) and the later `parseState` (upper-case, then
    `valueOf`). */
module BookingState {
  import opened Common
  import opened Text

  datatype State = ALL | CURRENT | PAST | FUTURE | WAITING | REJECTED

  /** `State.name()`. */
  function Name(st: State): string {
    match st
    case ALL => "ALL"
    case CURRENT => "CURRENT"
    case PAST => "PAST"
    case FUTURE => "FUTURE"
    case WAITING => "WAITING"
    case REJECTED => "REJECTED"
  }

  /** `State.values()`, in declaration order. */
  const Values: seq<State> := [ALL, CURRENT, PAST, FUTURE, WAITING, REJECTED]

  /** The first value whose name equals `s` ignoring case: the stream's
      `filter(...).findFirst()`. */
  function FirstMatching(vs: seq<State>, s: string): (r: Option<State>)
    ensures r.Some? ==> r.value in vs && EqualsIgnoreCase(Name(r.value), s)
    ensures r.None? <==> forall i :: 0 <= i < |vs| ==> !EqualsIgnoreCase(Name(vs[i]), s)
  {
    if vs == [] then None
    else if EqualsIgnoreCase(Name(vs[0]), s) then Some(vs[0])
    else
      var r := FirstMatching(vs[1..], s);
      assert forall i :: 1 <= i < |vs| ==> vs[i] == vs[1..][i - 1];
      r
  }

  /** `BookingState.from`: the state whose name equals `s` ignoring case, else
      IllegalArgumentException. */
  function From(s: string): (r: Result<State>)
    ensures r.Ok? ==> EqualsIgnoreCase(Name(r.value), s)
    ensures r.Err? ==> r.error == IllegalArgument && forall st :: !EqualsIgnoreCase(Name(st), s)
  {
    match FirstMatching(Values, s)
    case Some(st) => Ok(st)
    case None =>
      assert forall st :: !EqualsIgnoreCase(Name(st), s) by {
        forall st ensures !EqualsIgnoreCase(Name(st), s) {
          assert !EqualsIgnoreCase(Name(Values[IndexOf(st)]), s);
        }
      }
      Err(IllegalArgument)
  }

  /** Position of a state in `Values`. */
  function IndexOf(st: State): (k: nat)
    ensures k < |Values| && Values[k] == st
  {
    match st
    case ALL => 0
    case CURRENT => 1
    case PAST => 2
    case FUTURE => 3
    case WAITING => 4
    case REJECTED => 5
  }

  /** `Enum.valueOf`: the state whose name is exactly `n`. */
  function ValueOf(n: string): (r: Option<State>)
    ensures r.Some? ==> Name(r.value) == n
    ensures r.None? ==> forall st :: Name(st) != n
  {
    if n == "ALL" then Some(ALL)
    else if n == "CURRENT" then Some(CURRENT)
    else if n == "PAST" then Some(PAST)
    else if n == "FUTURE" then Some(FUTURE)
    else if n == "WAITING" then Some(WAITING)
    else if n == "REJECTED" then Some(REJECTED)
    else None
  }

  /** `BookingServiceImpl.parseState`: `valueOf(s.toUpperCase())`, with the
      IllegalArgumentException rethrown as ValidationException. */
  function ParseState(s: string): (r: Result<State>)
    ensures r.Ok? ==> Name(r.value) == ToUpper(s)
    ensures r.Err? ==> r.error == Validation && forall st :: Name(st) != ToUpper(s)
  {
    match ValueOf(ToUpper(s))
    case Some(st) => Ok(st)
    case None => Err(Validation)
  }

  /** Every name is already upper case. */
  lemma NameIsUpper(st: State)
    ensures ToUpper(Name(st)) == Name(st)
  {
    var n := Name(st);
    forall i | 0 <= i < |n| ensures ToUpperChar(n[i]) == n[i] {
      assert 'A' <= n[i] <= 'Z';
    }
  }

  /** Two names that are equal ignoring case belong to the same state. */
  lemma {:induction false} NamesDistinctIgnoringCase(a: State, b: State)
    requires EqualsIgnoreCase(Name(a), Name(b))
    ensures a == b
  {
    EqualsIgnoreCaseIsUpperEquality(Name(a), Name(b));
    NameIsUpper(a);
    NameIsUpper(b);
    assert Name(a) == Name(b);
    assert ValueOf(Name(a)) == Some(a);
  }

  /** `from` accepts exactly the strings equal to a name ignoring case, and then
      returns that name's state. */
  lemma {:induction false} FromMatchesIgnoringCase(s: string, st: State)
    ensures From(s) == Ok(st) <==> EqualsIgnoreCase(Name(st), s)
  {
    EqualsIgnoreCaseIsUpperEquality(Name(st), s);
    if From(s).Ok? {
      var x := From(s).value;
      EqualsIgnoreCaseIsUpperEquality(Name(x), s);
      EqualsIgnoreCaseIsUpperEquality(Name(x), Name(st));
      if EqualsIgnoreCase(Name(st), s) {
        NamesDistinctIgnoringCase(x, st);
      }
    }
  }

  /** Round trip: parsing a state's own name gives that state back. */
  lemma {:induction false} FromName(st: State)
    ensures From(Name(st)) == Ok(st)
  {
    EqualsIgnoreCaseIsUpperEquality(Name(st), Name(st));
    FromMatchesIgnoringCase(Name(st), st);
  }

  /** The two parsers accept the same strings and return the same state; they
      differ only in the exception they throw. */
  lemma {:induction false} ParseStateAgreesWithFrom(s: string)
    ensures ParseState(s).Ok? <==> From(s).Ok?
    ensures ParseState(s).Ok? ==> ParseState(s).value == From(s).value
    ensures ParseState(s).Err? ==> ParseState(s).error == Validation && From(s).error == IllegalArgument
  {
    if ParseState(s).Ok? {
      var st := ParseState(s).value;
      NameIsUpper(st);
      EqualsIgnoreCaseIsUpperEquality(Name(st), s);
      FromMatchesIgnoringCase(s, st);
    } else if From(s).Ok? {
      var st := From(s).value;
      NameIsUpper(st);
      EqualsIgnoreCaseIsUpperEquality(Name(st), s);
      assert false;
    }
  }
}
