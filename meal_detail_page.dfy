/** The detail view: the list context it binds from the navigation payload, the
    next/previous step with wraparound, the derived control flags, the fetch of the
    record and the split of its instructions into paragraphs. */
module MealDetailPage {
  import opened Meals
  import opened Text
  import opened MealApi

  /** The payload a listing attaches to a link into the detail view; every field may be missing. */
  datatype DetailState = DetailState(list: Option<seq<string>>, index: Option<int>, origin: Option<string>)

  /** A bound list context: the id list captured from the listing and the current position. */
  datatype ListState = ListState(list: seq<string>, index: int, origin: Option<string>)

  /** One effective step: the new context and the id the view navigates to. */
  datatype Move = Move(next: ListState, target: string)

  /** The navigation the view issues after a step: the meal to show and its payload. */
  datatype Navigation = Navigation(mealId: string, state: DetailState)

  datatype DetailError = NotFound | FetchFailed

  // ----- Binding -----------------------------------------------------------------

  /** A payload binds a context exactly when it has a list (possibly empty) and a numeric index. */
  function Bind(locationState: Option<DetailState>): (r: Option<ListState>)
    ensures r.Some? <==>
      locationState.Some? && locationState.value.list.Some? && locationState.value.index.Some?
    ensures r.Some? ==>
      r.value.list == locationState.value.list.value &&
      r.value.index == locationState.value.index.value &&
      r.value.origin == locationState.value.origin
  {
    match locationState
    case None => None
    case Some(state) =>
      if state.list.Some? && state.index.Some? then Some(ListState(state.list.value, state.index.value, state.origin))
      else None
  }

  // ----- Index arithmetic --------------------------------------------------------

  /** JavaScript's `a % n`: the remainder of division truncated toward zero, with the sign of `a`. */
  function JsRem(a: int, n: int): (r: int)
    requires n > 0
    ensures -n < r < n
  {
    if a >= 0 then a % n else -((-a) % n)
  }

  /** The quotient that goes with `JsRem`: division truncated toward zero. */
  function JsQuot(a: int, n: int): int
    requires n > 0
  {
    if a >= 0 then a / n else -((-a) / n)
  }

  lemma JsDivision(a: int, n: int)
    requires n > 0
    ensures a == JsQuot(a, n) * n + JsRem(a, n)
  {
    if a < 0 {
      assert -a == ((-a) / n) * n + (-a) % n;
    }
  }

  /** Euclidean remainders are determined by any decomposition `x == q * n + r` with `0 <= r < n`. */
  lemma ModUnique(x: int, q: int, r: int, n: int)
    requires n > 0 && 0 <= r < n && x == q * n + r
    ensures x % n == r
  {
    var q', r' := x / n, x % n;
    assert x == q' * n + r';
    if q' < q {
      assert (q - q') * n >= n by { MulAtLeast(q - q', n); }
      assert false;
    } else if q < q' {
      assert (q' - q) * n >= n by { MulAtLeast(q' - q, n); }
      assert false;
    }
  }

  lemma MulAtLeast(d: int, n: int)
    requires d >= 1 && n > 0
    ensures d * n >= n
  {
  }

  lemma ModShift(x: int, q: int, n: int)
    requires n > 0
    ensures (x + q * n) % n == x % n
  {
    assert x == (x / n) * n + x % n;
    ModUnique(x + q * n, x / n + q, x % n, n);
  }

  lemma ModAddCongruent(a: int, b: int, n: int)
    requires n > 0
    ensures (a % n + b) % n == (a + b) % n
  {
    assert a == (a / n) * n + a % n;
    ModShift(a + b, -(a / n), n);
    assert a % n + b == (a + b) + (-(a / n)) * n;
  }

  /** `((index + offset) % n + n) % n` with JavaScript's `%`. */
  function NextIndex(index: int, offset: int, n: int): (r: int)
    requires n > 0
    ensures 0 <= r < n
  {
    JsRem(JsRem(index + offset, n) + n, n)
  }

  /** The double remainder is the Euclidean remainder of `index + offset`, for every integer
      index, including indices outside the list. */
  lemma NextIndexIsMod(index: int, offset: int, n: int)
    requires n > 0
    ensures NextIndex(index, offset, n) == (index + offset) % n
  {
    var a := index + offset;
    var t := JsRem(a, n);
    JsDivision(a, n);
    assert t + n == a + (1 - JsQuot(a, n)) * n;
    ModShift(a, 1 - JsQuot(a, n), n);
  }

  /** Two steps add up: stepping by `o1` then by `o2` lands where one step by `o1 + o2` does. */
  lemma StepsCompose(index: int, o1: int, o2: int, n: int)
    requires n > 0
    ensures NextIndex(NextIndex(index, o1, n), o2, n) == NextIndex(index, o1 + o2, n)
  {
    NextIndexIsMod(index, o1, n);
    NextIndexIsMod(NextIndex(index, o1, n), o2, n);
    NextIndexIsMod(index, o1 + o2, n);
    ModAddCongruent(index + o1, o2, n);
  }

  /** From a position in the list, a step and the opposite step return to it. */
  lemma StepThenBack(index: int, offset: int, n: int)
    requires 0 <= index < n
    ensures NextIndex(NextIndex(index, offset, n), -offset, n) == index
  {
    StepsCompose(index, offset, -offset, n);
    NextIndexIsMod(index, 0, n);
    ModUnique(index, 0, index, n);
  }

  /** A list of one element always steps to its only position. */
  lemma SingletonStepsToItself(index: int, offset: int)
    ensures NextIndex(index, offset, 1) == 0
  {
    NextIndexIsMod(index, offset, 1);
    ModUnique(index + offset, index + offset, 0, 1);
  }

  // ----- Stepping ----------------------------------------------------------------

  /** `handleNavigate`'s decision: no step without a context, with an empty list, or when
      the id at the new position is empty; otherwise only the index changes and the
      view moves to the id at the new index. */
  function Step(listState: Option<ListState>, offset: int): (r: Option<Move>)
    ensures r.None? <==>
      listState.None? || |listState.value.list| == 0 ||
      listState.value.list[NextIndex(listState.value.index, offset, |listState.value.list|)] == []
    ensures r.Some? ==>
      var current := listState.value;
      var n := |current.list|;
      r.value.next == current.(index := r.value.next.index) &&
      r.value.next.index == (current.index + offset) % n &&
      r.value.target == current.list[r.value.next.index] && r.value.target != []
  {
    if listState.None? then None
    else
      var list := listState.value.list;
      if |list| == 0 then None
      else
        var nextIndex := NextIndex(listState.value.index, offset, |list|);
        NextIndexIsMod(listState.value.index, offset, |list|);
        if list[nextIndex] == [] then None
        else Some(Move(listState.value.(index := nextIndex), list[nextIndex]))
  }

  /** The context after `k` presses of the same button (a press that is a no-op leaves it). */
  function Walk(start: ListState, offset: int, k: nat): ListState {
    if k == 0 then start
    else
      var previous := Walk(start, offset, k - 1);
      match Step(Some(previous), offset)
      case None => previous
      case Some(move) => move.next
  }

  predicate NoEmptyIds(list: seq<string>) {
    forall k :: 0 <= k < |list| ==> list[k] != []
  }

  /** With no empty ids, `k` presses advance the index by `k * offset`, wrapping around. */
  lemma {:induction false} WalkIndex(start: ListState, offset: int, k: nat)
    requires |start.list| > 0 && NoEmptyIds(start.list)
    ensures Walk(start, offset, k) == start.(index := Walk(start, offset, k).index)
    ensures k > 0 ==> Walk(start, offset, k).index == (start.index + k * offset) % |start.list|
  {
    var n := |start.list|;
    if k > 0 {
      WalkIndex(start, offset, k - 1);
      var previous := Walk(start, offset, k - 1);
      var nextIndex := NextIndex(previous.index, offset, n);
      assert Walk(start, offset, k).index == nextIndex;
      if k == 1 {
        NextIndexIsMod(start.index, offset, n);
      } else {
        NextIndexIsMod(previous.index, offset, n);
        ModAddCongruent(start.index + (k - 1) * offset, offset, n);
        assert start.index + (k - 1) * offset + offset == start.index + k * offset;
      }
    }
  }

  /** Pressing the same button once per list entry, from a position in the list, comes back
      to the start: forward and backward alike. */
  lemma FullCycleReturns(start: ListState, offset: int)
    requires |start.list| > 0 && NoEmptyIds(start.list)
    requires 0 <= start.index < |start.list|
    requires offset == 1 || offset == -1
    ensures Walk(start, offset, |start.list|) == start
  {
    var n := |start.list|;
    WalkIndex(start, offset, n);
    ModShift(start.index, offset, n);
    ModUnique(start.index, 0, start.index, n);
    assert n * offset == offset * n;
  }

  /** Next then Previous (or Previous then Next) restores the context, as long as the
      starting position holds a non-empty id. */
  lemma StepAndStepBack(current: ListState, offset: int)
    requires Step(Some(current), offset).Some?
    requires 0 <= current.index < |current.list| && current.list[current.index] != []
    ensures Step(Some(Step(Some(current), offset).value.next), -offset) == Some(Move(current, current.list[current.index]))
  {
    StepThenBack(current.index, offset, |current.list|);
  }

  /** The worked example: in `["1","2","3"]` at index 2, Next wraps to index 0 (id "1"),
      and Previous from there returns to index 2 (id "3"). */
  lemma WrapExample()
    ensures var start := ListState(["1", "2", "3"], 2, Some("search"));
      Step(Some(start), 1) == Some(Move(start.(index := 0), "1")) &&
      Step(Some(start.(index := 0)), -1) == Some(Move(start, "3"))
  {
    var start := ListState(["1", "2", "3"], 2, Some("search"));
    assert NextIndex(2, 1, 3) == 0;
    assert NextIndex(0, -1, 3) == 2;
  }

  // ----- Derived flags -----------------------------------------------------------

  /** The buttons are disabled only when there is no context or its list is empty. */
  predicate NavigationDisabled(listState: Option<ListState>)
    ensures NavigationDisabled(listState) ==> Step(listState, 1).None? && Step(listState, -1).None?
  {
    listState.None? || |listState.value.list| == 0
  }

  /** More than one entry: used only to choose the hint text. */
  predicate CanNavigate(listState: Option<ListState>)
    ensures CanNavigate(listState) ==> !NavigationDisabled(listState)
  {
    listState.Some? && |listState.value.list| > 1
  }

  /** A disabled control would be a no-op anyway, and an enabled one always moves when no
      id is empty; the "keep browsing" hint shows exactly for a one-entry list. */
  lemma ControlsMatchSteps(listState: Option<ListState>, offset: int)
    ensures NavigationDisabled(listState) ==> Step(listState, offset).None?
    ensures !NavigationDisabled(listState) && NoEmptyIds(listState.value.list) ==> Step(listState, offset).Some?
    ensures CanNavigate(listState) ==> !NavigationDisabled(listState)
    ensures (!CanNavigate(listState) && !NavigationDisabled(listState)) <==>
      (listState.Some? && |listState.value.list| == 1)
  {
  }

  // ----- Instructions ------------------------------------------------------------

  /** The number of `\n` characters that start `s`. */
  function NewlineRun(s: string): (k: nat)
    ensures k <= |s|
    ensures forall i :: 0 <= i < k ==> s[i] == '\n'
    ensures k < |s| ==> s[k] != '\n'
  {
    if s != [] && s[0] == '\n' then 1 + NewlineRun(s[1..]) else 0
  }

  /** The length of the greedy match of `/\r?\n+/` at the start of `s`; 0 when it does not match. */
  function SeparatorAt(s: string): (k: nat)
    ensures k <= |s|
    ensures k == 0 <==> !(s != [] && s[0] == '\n') && !(|s| >= 2 && s[0] == '\r' && s[1] == '\n')
  {
    if s != [] && s[0] == '\n' then NewlineRun(s)
    else if |s| >= 2 && s[0] == '\r' && s[1] == '\n' then 1 + NewlineRun(s[1..])
    else 0
  }

  /** `s.split(/\r?\n+/)`: the pieces between the leftmost-longest separator matches. */
  function SplitLines(s: string): (r: seq<string>)
    ensures |r| >= 1
    ensures forall k :: 0 <= k < |r| ==> '\n' !in r[k]
    decreases |s|
  {
    if s == [] then [[]]
    else
      var k := SeparatorAt(s);
      if k > 0 then [[]] + SplitLines(s[k..])
      else
        var rest := SplitLines(s[1..]);
        [[s[0]] + rest[0]] + rest[1..]
  }

  lemma {:induction false} SplitLinesWithoutNewline(p: string)
    requires '\n' !in p
    ensures SplitLines(p) == [p]
    decreases |p|
  {
    if p != [] {
      SplitLinesWithoutNewline(p[1..]);
      assert [p[0]] + p[1..] == p;
    }
  }

  lemma {:induction false} SplitLinesPieceThenRest(p: string, rest: string)
    requires '\n' !in p && (p != [] ==> p[|p| - 1] != '\r')
    requires rest != [] ==> rest[0] != '\n'
    ensures SplitLines(p + ['\n'] + rest) == [p] + SplitLines(rest)
    decreases |p|
  {
    var s := p + ['\n'] + rest;
    if p == [] {
      assert s == ['\n'] + rest;
      assert NewlineRun(s[1..]) == 0;
      assert s[1..] == rest;
    } else {
      SplitLinesPieceThenRest(p[1..], rest);
      assert s[1..] == p[1..] + ['\n'] + rest;
      assert [p[0]] + p[1..] == p;
    }
  }

  /** The paragraphs of an instruction text: each piece trimmed, empty pieces dropped. */
  function Paragraphs(instructions: string): (r: seq<string>)
    ensures forall k :: 0 <= k < |r| ==> r[k] != [] && Trimmed(r[k]) && '\n' !in r[k]
  {
    CleanPiecesAvoids(SplitLines(instructions), '\n');
    CleanPieces(SplitLines(instructions))
  }

  /** Paragraphs that are already clean survive being joined with line breaks and re-split. */
  lemma {:induction false} ParagraphsOfJoined(paragraphs: seq<string>)
    requires forall k :: 0 <= k < |paragraphs| ==>
      paragraphs[k] != [] && Trimmed(paragraphs[k]) && '\n' !in paragraphs[k]
    ensures Paragraphs(Join(paragraphs, '\n')) == paragraphs
  {
    if paragraphs == [] {
      assert SplitLines([]) == [[]];
    } else {
      SplitLinesOfJoined(paragraphs);
      CleanPiecesOfClean(paragraphs);
    }
  }

  lemma {:induction false} SplitLinesOfJoined(paragraphs: seq<string>)
    requires |paragraphs| >= 1
    requires forall k :: 0 <= k < |paragraphs| ==>
      paragraphs[k] != [] && Trimmed(paragraphs[k]) && '\n' !in paragraphs[k]
    ensures SplitLines(Join(paragraphs, '\n')) == paragraphs
    decreases |paragraphs|
  {
    if |paragraphs| == 1 {
      SplitLinesWithoutNewline(paragraphs[0]);
    } else {
      var first, tail := paragraphs[0], paragraphs[1..];
      var rest := Join(tail, '\n');
      assert SplitLines(rest) == tail by {
        SplitLinesOfJoined(tail);
      }
      assert rest != [] && rest[0] != '\n' by {
        assert rest[0] == tail[0][0] by {
          if |tail| > 1 { assert rest == tail[0] + ['\n'] + Join(tail[1..], '\n'); }
        }
        assert IsSpace('\n');
      }
      assert '\n' !in first && first[|first| - 1] != '\r' by {
        assert IsSpace('\r');
      }
      SplitLinesPieceThenRest(first, rest);
      assert [first] + tail == paragraphs;
    }
  }

  /** `instructions`: nothing for a missing record or empty instructions. */
  function Instructions(meal: Option<MealDetail>): (r: seq<string>)
    ensures meal.None? || meal.value.instructions == [] ==> r == []
    ensures forall k :: 0 <= k < |r| ==> r[k] != [] && Trimmed(r[k]) && '\n' !in r[k]
  {
    if meal.None? || meal.value.instructions == [] then [] else Paragraphs(meal.value.instructions)
  }

  // ----- The view ----------------------------------------------------------------

  /** The detail view's state cells. */
  class DetailView {
    var listState: Option<ListState>
    var meal: Option<MealDetail>
    var error: Option<DetailError>
    var loading: bool

    /** Mounting: the context is bound from the payload the view was entered with, if any. */
    constructor (locationState: Option<DetailState>)
      ensures listState == Bind(locationState)
      ensures meal == None && error == None && loading
    {
      listState := Bind(locationState);
      meal := None;
      error := None;
      loading := true;
    }

    /** A new payload rebinds the context; a payload without list or index leaves it as it was. */
    method ReceiveLocationState(locationState: Option<DetailState>)
      modifies this`listState
      ensures Bind(locationState).Some? ==> listState == Bind(locationState)
      ensures Bind(locationState).None? ==> listState == old(listState)
    {
      var bound := Bind(locationState);
      if bound.Some? {
        listState := bound;
      }
    }

    /** `handleNavigate`: after the guards, only the index changes, and the view navigates
        to the id at the new index with the same list and origin. */
    method HandleNavigate(offset: int) returns (navigation: Option<Navigation>)
      modifies this`listState
      ensures Step(old(listState), offset).None? ==> listState == old(listState) && navigation == None
      ensures Step(old(listState), offset).Some? ==>
        var move := Step(old(listState), offset).value;
        listState == Some(move.next) &&
        navigation == Some(Navigation(move.target, DetailState(Some(move.next.list), Some(move.next.index), move.next.origin)))
    {
      if listState.None? {
        return None;
      }
      var list := listState.value.list;
      if |list| == 0 {
        return None;
      }
      var nextIndex := NextIndex(listState.value.index, offset, |list|);
      var nextId := list[nextIndex];
      if nextId == [] {
        return None;
      }
      var origin := listState.value.origin;
      listState := Some(listState.value.(index := nextIndex));
      navigation := Some(Navigation(nextId, DetailState(Some(list), Some(nextIndex), origin)));
    }

    /** The record fetch for the route's id: nothing happens without an id; an absent record
        and a failed request are told apart. */
    method LoadMeal(mealId: string, lookup: string -> Settled<MealsBody>)
      modifies this`meal, this`error, this`loading
      ensures mealId == [] ==> meal == old(meal) && error == old(error) && loading == old(loading)
      ensures mealId != [] ==> !loading && (match GetMealById(mealId, lookup)
        case Rejected => meal == None && error == Some(FetchFailed)
        case Fulfilled(None) => meal == None && error == Some(NotFound)
        case Fulfilled(Some(detail)) => meal == Some(detail) && error == None)
    {
      if mealId == [] {
        return;
      }
      loading := true;
      error := None;
      match GetMealById(mealId, lookup) {
        case Rejected =>
          error := Some(FetchFailed);
          meal := None;
        case Fulfilled(None) =>
          error := Some(NotFound);
          meal := None;
        case Fulfilled(Some(detail)) =>
          meal := Some(detail);
      }
      loading := false;
    }

    /** The `instructions` memo over the view's record. */
    function InstructionParagraphs(): (r: seq<string>)
      reads this
      ensures meal.None? ==> r == []
      ensures forall k :: 0 <= k < |r| ==> r[k] != [] && Trimmed(r[k]) && '\n' !in r[k]
    {
      Instructions(meal)
    }
  }

  /** The payload a step navigates with binds back to the very context the step produced. */
  lemma NavigationRebindsStep(listState: Option<ListState>, offset: int)
    requires Step(listState, offset).Some?
    ensures var move := Step(listState, offset).value;
      Bind(Some(DetailState(Some(move.next.list), Some(move.next.index), move.next.origin))) == Some(move.next)
  {
  }
}
