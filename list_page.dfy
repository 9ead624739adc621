/** The search/list view: its query state restored from and written back to the
    URL parameters, the stable sort engine, and the list it displays and links from. */
module ListPage {
  import opened Meals
  import opened Text
  import opened MealApi
  import opened MealDetailPage
  import opened ListLinks

  datatype SortKey = Name | Category | Area
  datatype SortOrder = Asc | Desc

  /** How many random meals the page asks for as its featured list. */
  const FeaturedCount := 8

  // ----- Sort engine -------------------------------------------------------------

  function SortField(meal: MealSummary, key: SortKey): Option<string> {
    match key
    case Name => Some(meal.name)
    case Category => meal.category
    case Area => meal.area
  }

  /** `left ? left.toLowerCase() : ''`: the lower-cased field, `''` for null or empty. */
  function SortText(meal: MealSummary, key: SortKey): string {
    var field := SortField(meal, key);
    if field.Some? && field.value != [] then Lower(field.value) else []
  }

  /** The comparator `sortMeals` hands to `sort`: 0 for equal texts, otherwise the
      ascending sign multiplied by `direction`. */
  function Compare(a: MealSummary, b: MealSummary, key: SortKey, order: SortOrder): (r: int)
    ensures r == 0 || r == 1 || r == -1
  {
    var left, right := SortText(a, key), SortText(b, key);
    var direction := if order == Asc then 1 else -1;
    if left == right then 0 else if Less(right, left) then direction else -direction
  }

  /** Text `a` comes strictly before text `b` in the given direction. */
  predicate Precedes(a: string, b: string, order: SortOrder) {
    if order == Asc then Less(a, b) else Less(b, a)
  }

  /** The comparator's sign says exactly whether the texts are equal or which one comes first. */
  lemma CompareMeaning(a: MealSummary, b: MealSummary, key: SortKey, order: SortOrder)
    ensures Compare(a, b, key, order) == 0 <==> SortText(a, key) == SortText(b, key)
    ensures Compare(a, b, key, order) < 0 <==> Precedes(SortText(a, key), SortText(b, key), order)
    ensures Compare(a, b, key, order) > 0 <==> Precedes(SortText(b, key), SortText(a, key), order)
  {
    var left, right := SortText(a, key), SortText(b, key);
    LessTotal(left, right);
    LessIrreflexive(left);
    if Less(left, right) {
      LessAsymmetric(left, right);
    }
    if Less(right, left) {
      LessAsymmetric(right, left);
    }
  }

  /** Descending order is the ascending comparator with its sign reversed. */
  lemma DescendingFlipsSign(a: MealSummary, b: MealSummary, key: SortKey)
    ensures Compare(a, b, key, Desc) == -Compare(a, b, key, Asc)
  {
  }

  lemma CompareAntisymmetric(a: MealSummary, b: MealSummary, key: SortKey, order: SortOrder)
    ensures Compare(b, a, key, order) == -Compare(a, b, key, order)
  {
    CompareMeaning(a, b, key, order);
    CompareMeaning(b, a, key, order);
  }

  lemma CompareTransitive(a: MealSummary, b: MealSummary, c: MealSummary, key: SortKey, order: SortOrder)
    requires Compare(a, b, key, order) <= 0 && Compare(b, c, key, order) <= 0
    ensures Compare(a, c, key, order) <= 0
  {
    CompareMeaning(a, b, key, order);
    CompareMeaning(b, c, key, order);
    CompareMeaning(a, c, key, order);
    var ta, tb, tc := SortText(a, key), SortText(b, key), SortText(c, key);
    if ta != tb && tb != tc {
      if order == Asc { LessTransitive(ta, tb, tc); } else { LessTransitive(tc, tb, ta); }
    }
  }

  /** A null or empty field compares as `''`: never after anything in ascending order,
      never before anything in descending order. */
  lemma EmptyTextComparesFirst(a: MealSummary, b: MealSummary, key: SortKey)
    requires SortField(a, key).None? || SortField(a, key) == Some([])
    ensures Compare(a, b, key, Asc) <= 0 && Compare(a, b, key, Desc) >= 0
  {
  }

  /** A comparator as `sort` receives it: negative, zero or positive. */
  type Comparator = (MealSummary, MealSummary) -> int

  /** The laws the sort relies on: swapping the arguments negates the result, and
      "no later than" (a result `<= 0`) is transitive. The triggers only fire on
      comparisons a proof already mentions, so the laws never invent new ones. */
  ghost predicate Consistent(cmp: Comparator) {
    (forall a, b {:trigger cmp(a, b), cmp(b, a)} :: cmp(b, a) == -cmp(a, b)) &&
    (forall a, b, c {:trigger cmp(a, b), cmp(b, c), cmp(a, c)} ::
       cmp(a, b) <= 0 && cmp(b, c) <= 0 ==> cmp(a, c) <= 0)
  }

  /** The comparator `sortMeals` builds for a key and an order. */
  function ComparatorFor(key: SortKey, order: SortOrder): Comparator {
    (a, b) => Compare(a, b, key, order)
  }

  lemma ComparatorForIsConsistent(key: SortKey, order: SortOrder)
    ensures Consistent(ComparatorFor(key, order))
  {
    var cmp := ComparatorFor(key, order);
    forall a, b ensures cmp(b, a) == -cmp(a, b) {
      CompareAntisymmetric(a, b, key, order);
    }
    forall a, b, c | cmp(a, b) <= 0 && cmp(b, c) <= 0 ensures cmp(a, c) <= 0 {
      CompareTransitive(a, b, c, key, order);
    }
  }

  /** Inserting `x` behind a sorted prefix: it moves left past every element that
      compares after it, and stops behind an equal one. */
  function Insert(sorted: seq<MealSummary>, x: MealSummary, cmp: Comparator): seq<MealSummary>
    decreases |sorted|
  {
    if sorted == [] then [x]
    else if cmp(sorted[|sorted| - 1], x) > 0 then Insert(sorted[..|sorted| - 1], x, cmp) + [sorted[|sorted| - 1]]
    else sorted + [x]
  }

  function InsertPosition(sorted: seq<MealSummary>, x: MealSummary, cmp: Comparator): (k: nat)
    ensures k <= |sorted|
    decreases |sorted|
  {
    if sorted == [] then 0
    else if cmp(sorted[|sorted| - 1], x) > 0 then InsertPosition(sorted[..|sorted| - 1], x, cmp)
    else |sorted|
  }

  /** `x` lands at its insert position: every element behind it compares after it, and the
      one before it does not. */
  lemma {:induction false} InsertShape(sorted: seq<MealSummary>, x: MealSummary, cmp: Comparator)
    ensures var k := InsertPosition(sorted, x, cmp);
      Insert(sorted, x, cmp) == sorted[..k] + [x] + sorted[k..] &&
      (forall i :: k <= i < |sorted| ==> cmp(sorted[i], x) > 0) &&
      (0 < k ==> cmp(sorted[k - 1], x) <= 0)
    decreases |sorted|
  {
    if sorted != [] && cmp(sorted[|sorted| - 1], x) > 0 {
      var init := sorted[..|sorted| - 1];
      InsertShape(init, x, cmp);
      var k := InsertPosition(init, x, cmp);
      assert init[..k] == sorted[..k];
      assert init[k..] + [sorted[|sorted| - 1]] == sorted[k..];
    }
  }

  /** `[...meals].sort(cmp)`: the stable sort, as the insertion of each element in turn. */
  function SortedBy(meals: seq<MealSummary>, cmp: Comparator): seq<MealSummary>
    decreases |meals|
  {
    if meals == [] then []
    else Insert(SortedBy(meals[..|meals| - 1], cmp), meals[|meals| - 1], cmp)
  }

  predicate Ordered(s: seq<MealSummary>, cmp: Comparator) {
    forall i, j :: 0 <= i < j < |s| ==> cmp(s[i], s[j]) <= 0
  }

  /** The items of `s` that tie with `pivot`, in their order in `s`. */
  function Ties(s: seq<MealSummary>, cmp: Comparator, pivot: MealSummary): seq<MealSummary>
    decreases |s|
  {
    if s == [] then []
    else Ties(s[..|s| - 1], cmp, pivot) + (if cmp(s[|s| - 1], pivot) == 0 then [s[|s| - 1]] else [])
  }

  lemma {:induction false} TiesAppend(a: seq<MealSummary>, b: seq<MealSummary>, cmp: Comparator, pivot: MealSummary)
    ensures Ties(a + b, cmp, pivot) == Ties(a, cmp, pivot) + Ties(b, cmp, pivot)
    decreases |b|
  {
    if b == [] {
      assert a + b == a;
    } else {
      var c := a + b;
      assert c[..|c| - 1] == a + b[..|b| - 1] && c[|c| - 1] == b[|b| - 1];
      TiesAppend(a, b[..|b| - 1], cmp, pivot);
    }
  }

  lemma {:induction false} TiesNone(s: seq<MealSummary>, cmp: Comparator, pivot: MealSummary)
    requires forall i :: 0 <= i < |s| ==> cmp(s[i], pivot) != 0
    ensures Ties(s, cmp, pivot) == []
    decreases |s|
  {
    if s != [] {
      TiesNone(s[..|s| - 1], cmp, pivot);
    }
  }

  lemma PlacedPermutes(front: seq<MealSummary>, x: MealSummary, back: seq<MealSummary>)
    ensures multiset(front + [x] + back) == multiset(front + back) + multiset{x}
  {
  }

  lemma InsertPermutes(sorted: seq<MealSummary>, x: MealSummary, cmp: Comparator)
    ensures multiset(Insert(sorted, x, cmp)) == multiset(sorted) + multiset{x}
  {
    InsertShape(sorted, x, cmp);
    var k := InsertPosition(sorted, x, cmp);
    assert sorted == sorted[..k] + sorted[k..];
    PlacedPermutes(sorted[..k], x, sorted[k..]);
  }

  /** `x` fits between `front` and `back` when the last of `front` is no later than it
      and all of `back` is later. */
  lemma OrderedAroundInsert(front: seq<MealSummary>, x: MealSummary, back: seq<MealSummary>, cmp: Comparator)
    requires Consistent(cmp) && Ordered(front + back, cmp)
    requires front != [] ==> cmp(front[|front| - 1], x) <= 0
    requires forall i :: 0 <= i < |back| ==> cmp(back[i], x) > 0
    ensures Ordered(front + [x] + back, cmp)
  {
    var s, r, k := front + back, front + [x] + back, |front|;
    assert forall i :: 0 <= i < k ==> r[i] == s[i];
    assert forall i :: k < i < |r| ==> r[i] == s[i - 1];
    forall i, j | 0 <= i < j < |r|
      ensures cmp(r[i], r[j]) <= 0
    {
      if j == k && i < k - 1 {
        assert cmp(s[i], s[k - 1]) <= 0;
      } else if i == k {
        assert cmp(back[j - k - 1], x) > 0;
      }
    }
  }

  lemma InsertKeepsOrder(sorted: seq<MealSummary>, x: MealSummary, cmp: Comparator)
    requires Consistent(cmp) && Ordered(sorted, cmp)
    ensures Ordered(Insert(sorted, x, cmp), cmp)
  {
    InsertShape(sorted, x, cmp);
    var k := InsertPosition(sorted, x, cmp);
    assert sorted == sorted[..k] + sorted[k..];
    OrderedAroundInsert(sorted[..k], x, sorted[k..], cmp);
  }

  /** When `x` ties with `pivot`, nothing behind its insert position does. */
  lemma NoTiesBehindInsert(sorted: seq<MealSummary>, x: MealSummary, cmp: Comparator, pivot: MealSummary)
    requires Consistent(cmp) && cmp(x, pivot) == 0
    ensures Ties(sorted[InsertPosition(sorted, x, cmp)..], cmp, pivot) == []
  {
    InsertShape(sorted, x, cmp);
    var back := sorted[InsertPosition(sorted, x, cmp)..];
    forall i | 0 <= i < |back| ensures cmp(back[i], pivot) != 0 {
      assert cmp(back[i], x) > 0;
      assert cmp(pivot, x) == 0;
    }
    TiesNone(back, cmp, pivot);
  }

  /** Putting `x` between `front` and `back` adds it at the end of the ties, provided no
      tie of `x` sits in `back`. */
  lemma TiesAroundInsert(front: seq<MealSummary>, x: MealSummary, back: seq<MealSummary>, cmp: Comparator, pivot: MealSummary)
    requires cmp(x, pivot) == 0 ==> Ties(back, cmp, pivot) == []
    ensures Ties(front + [x] + back, cmp, pivot) == Ties(front + back, cmp, pivot) + Ties([x], cmp, pivot)
  {
    TiesAppend(front + [x], back, cmp, pivot);
    TiesAppend(front, [x], cmp, pivot);
    TiesAppend(front, back, cmp, pivot);
    assert [x][..0] == [];
  }

  /** Inserting `x` puts it behind every item it ties with. */
  lemma InsertIsStable(sorted: seq<MealSummary>, x: MealSummary, cmp: Comparator, pivot: MealSummary)
    requires Consistent(cmp)
    ensures Ties(Insert(sorted, x, cmp), cmp, pivot) == Ties(sorted, cmp, pivot) + Ties([x], cmp, pivot)
  {
    InsertShape(sorted, x, cmp);
    var k := InsertPosition(sorted, x, cmp);
    assert sorted == sorted[..k] + sorted[k..];
    if cmp(x, pivot) == 0 {
      NoTiesBehindInsert(sorted, x, cmp, pivot);
    }
    TiesAroundInsert(sorted[..k], x, sorted[k..], cmp, pivot);
  }

  lemma {:induction false} SortedByPermutes(meals: seq<MealSummary>, cmp: Comparator)
    ensures multiset(SortedBy(meals, cmp)) == multiset(meals)
    decreases |meals|
  {
    if meals != [] {
      var init := meals[..|meals| - 1];
      SortedByPermutes(init, cmp);
      InsertPermutes(SortedBy(init, cmp), meals[|meals| - 1], cmp);
      assert meals == init + [meals[|meals| - 1]];
    }
  }

  lemma {:induction false} SortedByIsOrdered(meals: seq<MealSummary>, cmp: Comparator)
    requires Consistent(cmp)
    ensures Ordered(SortedBy(meals, cmp), cmp)
    decreases |meals|
  {
    if meals != [] {
      var init := meals[..|meals| - 1];
      SortedByIsOrdered(init, cmp);
      InsertKeepsOrder(SortedBy(init, cmp), meals[|meals| - 1], cmp);
    }
  }

  lemma {:induction false} SortedByIsStable(meals: seq<MealSummary>, cmp: Comparator, pivot: MealSummary)
    requires Consistent(cmp)
    ensures Ties(SortedBy(meals, cmp), cmp, pivot) == Ties(meals, cmp, pivot)
    decreases |meals|
  {
    if meals != [] {
      var init, last := meals[..|meals| - 1], meals[|meals| - 1];
      SortedByIsStable(init, cmp, pivot);
      InsertIsStable(SortedBy(init, cmp), last, cmp, pivot);
      assert [last][..0] == [];
    }
  }

  /** What `sortMeals` returns for a key and an order. */
  function SortedMeals(meals: seq<MealSummary>, key: SortKey, order: SortOrder): seq<MealSummary> {
    SortedBy(meals, ComparatorFor(key, order))
  }

  /** The sorted list is a permutation of its input, agrees with the comparator, and
      keeps the input order among meals whose lower-cased keys are equal. */
  lemma SortedMealsCorrect(meals: seq<MealSummary>, key: SortKey, order: SortOrder)
    ensures var r := SortedMeals(meals, key, order);
      multiset(r) == multiset(meals) &&
      (forall i, j :: 0 <= i < j < |r| ==> Compare(r[i], r[j], key, order) <= 0)
    ensures forall pivot :: Ties(SortedMeals(meals, key, order), ComparatorFor(key, order), pivot)
                         == Ties(meals, ComparatorFor(key, order), pivot)
  {
    var cmp := ComparatorFor(key, order);
    ComparatorForIsConsistent(key, order);
    SortedByPermutes(meals, cmp);
    SortedByIsOrdered(meals, cmp);
    forall pivot ensures Ties(SortedBy(meals, cmp), cmp, pivot) == Ties(meals, cmp, pivot) {
      SortedByIsStable(meals, cmp, pivot);
    }
  }

  /** A tie is exactly an equal lower-cased key. */
  lemma TiesShareKey(s: seq<MealSummary>, key: SortKey, order: SortOrder, pivot: MealSummary, m: MealSummary)
    requires m in s
    ensures m in Ties(s, ComparatorFor(key, order), pivot) <==> SortText(m, key) == SortText(pivot, key)
  {
    CompareMeaning(m, pivot, key, order);
    TiesMembers(s, ComparatorFor(key, order), pivot, m);
  }

  lemma {:induction false} TiesMembers(s: seq<MealSummary>, cmp: Comparator, pivot: MealSummary, m: MealSummary)
    ensures m in Ties(s, cmp, pivot) <==> m in s && cmp(m, pivot) == 0
    decreases |s|
  {
    if s != [] {
      TiesMembers(s[..|s| - 1], cmp, pivot, m);
      assert s == s[..|s| - 1] + [s[|s| - 1]];
    }
  }

  /** Items with a null or empty field lead an ascending list and trail a descending one. */
  lemma EmptyTextsAtTheEnds(meals: seq<MealSummary>, key: SortKey)
    ensures var up := SortedMeals(meals, key, Asc);
      forall i, j :: 0 <= i < j < |up| && SortText(up[j], key) == [] ==> SortText(up[i], key) == []
    ensures var down := SortedMeals(meals, key, Desc);
      forall i, j :: 0 <= i < j < |down| && SortText(down[i], key) == [] ==> SortText(down[j], key) == []
  {
    SortedMealsCorrect(meals, key, Asc);
    SortedMealsCorrect(meals, key, Desc);
    var up, down := SortedMeals(meals, key, Asc), SortedMeals(meals, key, Desc);
    forall i, j | 0 <= i < j < |up| && SortText(up[j], key) == [] ensures SortText(up[i], key) == [] {
      CompareMeaning(up[i], up[j], key, Asc);
    }
    forall i, j | 0 <= i < j < |down| && SortText(down[i], key) == [] ensures SortText(down[j], key) == [] {
      CompareMeaning(down[i], down[j], key, Desc);
    }
  }

  /** `x` goes in at `j` when everything from `j` on compares after it and the element
      before `j`, if any, does not. */
  lemma {:induction false} InsertAt(p: seq<MealSummary>, j: int, x: MealSummary, cmp: Comparator)
    requires 0 <= j <= |p| && (j == 0 || cmp(p[j - 1], x) <= 0)
    requires forall m :: j <= m < |p| ==> cmp(p[m], x) > 0
    ensures Insert(p, x, cmp) == p[..j] + [x] + p[j..]
    decreases |p|
  {
    if j < |p| {
      var init := p[..|p| - 1];
      InsertAt(init, j, x, cmp);
      assert init[..j] == p[..j];
      assert init[j..] + [p[|p| - 1]] == p[j..];
    } else {
      assert p[..j] == p;
    }
  }

  /** A sequence that agrees with `prefix` before `j`, holds `x` at `j` and agrees with
      `prefix` shifted by one after `j` is `x` placed at `j`. */
  lemma PlacedBetween(placed: seq<MealSummary>, prefix: seq<MealSummary>, j: int, x: MealSummary)
    requires 0 <= j <= |prefix| && |placed| == |prefix| + 1 && placed[j] == x
    requires forall m :: 0 <= m < j ==> placed[m] == prefix[m]
    requires forall m :: j < m < |placed| ==> placed[m] == prefix[m - 1]
    ensures placed == prefix[..j] + [x] + prefix[j..]
  {
  }

  /** The inner loop of one insertion pass: every element of `items[..i]` from the right
      that compares after `x` moves one place right, leaving a gap at the returned `j`. */
  method ShiftLarger(items: array<MealSummary>, i: int, x: MealSummary, cmp: Comparator) returns (j: int)
    requires 0 <= i < items.Length
    modifies items
    ensures 0 <= j <= i
    ensures j == 0 || cmp(old(items[j - 1]), x) <= 0
    ensures forall m :: j <= m < i ==> cmp(old(items[m]), x) > 0
    ensures forall m :: 0 <= m < j ==> items[m] == old(items[m])
    ensures forall m :: j < m <= i ==> items[m] == old(items[m - 1])
    ensures forall m :: i < m < items.Length ==> items[m] == old(items[m])
  {
    j := i;
    while j > 0 && cmp(items[j - 1], x) > 0
      invariant 0 <= j <= i
      invariant forall m :: 0 <= m < j ==> items[m] == old(items[m])
      invariant forall m :: j < m <= i ==> items[m] == old(items[m - 1])
      invariant forall m :: i < m < items.Length ==> items[m] == old(items[m])
      invariant forall m :: j <= m < i ==> cmp(old(items[m]), x) > 0
    {
      items[j] := items[j - 1];
      j := j - 1;
    }
  }

  /** One pass of the in-place insertion: `items[i]` moves left past every element of the
      sorted prefix `items[..i]` that compares after it. */
  method InsertInPlace(items: array<MealSummary>, i: int, cmp: Comparator)
    requires 0 <= i < items.Length
    modifies items
    ensures items[..i + 1] == Insert(old(items[..i]), old(items[i]), cmp)
    ensures forall m :: i < m < items.Length ==> items[m] == old(items[m])
  {
    var x := items[i];
    ghost var prefix := items[..i];
    var j := ShiftLarger(items, i, x, cmp);
    InsertAt(prefix, j, x, cmp);
    items[j] := x;
    PlacedBetween(items[..i + 1], prefix, j, x);
  }

  /** `sortMeals`: copy the list into a fresh array and sort that copy in place; the
      caller's list is left as it was. */
  method SortMeals(meals: seq<MealSummary>, key: SortKey, order: SortOrder) returns (sorted: seq<MealSummary>)
    ensures sorted == SortedMeals(meals, key, order)
  {
    var cmp := ComparatorFor(key, order);
    var items := new MealSummary[|meals|](k requires 0 <= k < |meals| => meals[k]);
    assert items[..] == meals;
    var i := 0;
    while i < items.Length
      invariant 0 <= i <= items.Length == |meals|
      invariant items[..i] == SortedBy(meals[..i], cmp)
      invariant forall m :: i <= m < items.Length ==> items[m] == meals[m]
    {
      InsertInPlace(items, i, cmp);
      assert meals[..i + 1][..i] == meals[..i];
      i := i + 1;
    }
    assert meals[..|meals|] == meals;
    sorted := items[..];
  }

  // ----- Query state and URL parameters ------------------------------------------

  /** The view's query state: free text, sort key and sort order. */
  datatype QueryState = QueryState(query: string, sortKey: SortKey, sortOrder: SortOrder)

  function KeyName(key: SortKey): string {
    match key
    case Name => "name"
    case Category => "category"
    case Area => "area"
  }

  function OrderName(order: SortOrder): string {
    match order
    case Asc => "asc"
    case Desc => "desc"
  }

  /** `searchParams.get(name)`. */
  function Get(params: map<string, string>, name: string): Option<string> {
    if name in params then Some(params[name]) else None
  }

  /** `SORT_KEYS.includes(raw) ? raw : 'name'`. */
  function ParseSortKey(raw: Option<string>): (key: SortKey)
    ensures forall k :: raw == Some(KeyName(k)) ==> key == k
    ensures key != Name ==> raw == Some(KeyName(key))
  {
    if raw == Some("category") then Category
    else if raw == Some("area") then Area
    else Name
  }

  /** `raw === 'desc' ? 'desc' : 'asc'`. */
  function ParseSortOrder(raw: Option<string>): (order: SortOrder)
    ensures order == Desc <==> raw == Some("desc")
  {
    if raw == Some("desc") then Desc else Asc
  }

  /** Reading the state from the URL: a missing `q` is `''`, and an unknown sort key or
      order falls back to the default. */
  function Decode(params: map<string, string>): (state: QueryState)
    ensures "q" in params ==> state.query == params["q"]
    ensures "q" !in params ==> state.query == []
    ensures state.sortKey != Name ==> Get(params, "sort") == Some(KeyName(state.sortKey))
    ensures state.sortOrder == Desc <==> Get(params, "order") == Some("desc")
  {
    QueryState(
      if "q" in params then params["q"] else [],
      ParseSortKey(Get(params, "sort")),
      ParseSortOrder(Get(params, "order")))
  }

  /** The parameters written for a query that is already trimmed: each one is set only
      when it differs from its default. */
  function ParamsFor(trimmed: string, key: SortKey, order: SortOrder): (params: map<string, string>)
    ensures "q" in params <==> trimmed != []
    ensures "q" in params ==> params["q"] == trimmed
  {
    var withQuery := if trimmed != [] then map["q" := trimmed] else map[];
    var withKey := if key != Name then withQuery["sort" := KeyName(key)] else withQuery;
    if order != Asc then withKey["order" := OrderName(order)] else withKey
  }

  /** `syncSearchParams`'s parameters for a state. */
  function Encode(state: QueryState): (params: map<string, string>)
    ensures "q" in params <==> !Blank(state.query)
  {
    ParamsFor(Trim(state.query), state.sortKey, state.sortOrder)
  }

  /** The parameters leave the defaults out and carry the query trimmed. */
  lemma EncodeOmitsDefaults(state: QueryState)
    ensures var params := Encode(state);
      params.Keys <= {"q", "sort", "order"} &&
      ("q" in params <==> !Blank(state.query)) &&
      ("q" in params ==> params["q"] == Trim(state.query)) &&
      ("sort" in params <==> state.sortKey != Name) &&
      ("sort" in params ==> params["sort"] == KeyName(state.sortKey)) &&
      ("order" in params <==> state.sortOrder != Asc) &&
      ("order" in params ==> params["order"] == OrderName(state.sortOrder))
  {
    assert |"q"| == 1 && |"sort"| == 4 && |"order"| == 5;
  }

  /** Reading back what was written restores the state, with the query trimmed. */
  lemma DecodeEncode(state: QueryState)
    ensures Decode(Encode(state)) == state.(query := Trim(state.query))
  {
    EncodeOmitsDefaults(state);
  }

  /** Writing is canonical: re-encoding a decoded encoding gives the same parameters. */
  lemma EncodeDecodeEncode(state: QueryState)
    ensures Encode(Decode(Encode(state))) == Encode(state)
  {
    var q := Trim(state.query);
    DecodeEncode(state);
    TrimIdempotent(state.query);
    calc {
      Encode(Decode(Encode(state)));
      Encode(QueryState(q, state.sortKey, state.sortOrder));
      ParamsFor(Trim(q), state.sortKey, state.sortOrder);
      { assert Trim(q) == q; }
      ParamsFor(q, state.sortKey, state.sortOrder);
    }
  }

  function Flipped(order: SortOrder): (r: SortOrder)
    ensures r != order
  {
    if order == Asc then Desc else Asc
  }

  lemma FlipIsInvolution(order: SortOrder)
    ensures Flipped(Flipped(order)) == order
  {
  }

  // ----- The displayed list ------------------------------------------------------

  /** `displayMeals`: the search results while the trimmed query is non-empty, the
      featured meals otherwise; sorted by the current key and order. */
  function DisplayMeals(query: string, searchResults: seq<MealSummary>, featured: seq<MealSummary>,
                        key: SortKey, order: SortOrder): (r: seq<MealSummary>)
    ensures multiset(r) == multiset(if Blank(query) then featured else searchResults)
    ensures forall i, j :: 0 <= i < j < |r| ==> Compare(r[i], r[j], key, order) <= 0
    ensures forall pivot :: Ties(r, ComparatorFor(key, order), pivot)
                         == Ties(if Blank(query) then featured else searchResults, ComparatorFor(key, order), pivot)
  {
    var meals := if Trim(query) != [] then searchResults else featured;
    SortedMealsCorrect(meals, key, order);
    SortedMeals(meals, key, order)
  }

  /** The origin label of the list page's links. */
  function Origin(query: string): (origin: string)
    ensures origin == (if Blank(query) then "featured" else "search")
  {
    if Trim(query) != [] then "search" else "featured"
  }

  /** The page's error message for a failed search. The featured-meals message has no
      constructor: the random batch absorbs every rejected request, and the one way left to
      reach it, a fulfilled response whose body is not an object, is outside the model. */
  datatype ListError = SearchFailed

  /** The query state cells of the list view, the URL parameters and the fetched lists. */
  class ListView {
    var query: string
    var sortKey: SortKey
    var sortOrder: SortOrder
    var searchParams: map<string, string>
    var searchResults: seq<MealSummary>
    var featuredMeals: seq<MealSummary>
    var error: Option<ListError>

    /** The URL parameters agree with the current state. */
    predicate Synced()
      reads this
    {
      searchParams == Encode(QueryState(query, sortKey, sortOrder))
    }

    /** Mounting: the state cells start from the URL parameters. */
    constructor (params: map<string, string>)
      ensures QueryState(query, sortKey, sortOrder) == Decode(params)
      ensures searchParams == params
      ensures searchResults == [] && featuredMeals == [] && error == None
    {
      var state := Decode(params);
      query, sortKey, sortOrder := state.query, state.sortKey, state.sortOrder;
      searchParams := params;
      searchResults, featuredMeals := [], [];
      error := None;
    }

    /** `syncSearchParams`: build the parameters with successive `set` calls and replace them. */
    method SyncSearchParams(nextQuery: string, nextSortKey: SortKey, nextSortOrder: SortOrder)
      modifies this`searchParams
      ensures searchParams == Encode(QueryState(nextQuery, nextSortKey, nextSortOrder))
    {
      var params: map<string, string> := map[];
      var trimmed := Trim(nextQuery);
      if trimmed != [] {
        params := map["q" := trimmed];
      }
      if nextSortKey != Name {
        params := params["sort" := KeyName(nextSortKey)];
      }
      if nextSortOrder != Asc {
        params := params["order" := OrderName(nextSortOrder)];
      }
      assert params == ParamsFor(trimmed, nextSortKey, nextSortOrder);
      searchParams := params;
    }

    method HandleQueryChange(nextQuery: string)
      modifies this`query, this`searchParams
      ensures query == nextQuery && Synced()
    {
      query := nextQuery;
      SyncSearchParams(nextQuery, sortKey, sortOrder);
    }

    method HandleSortKeyChange(nextSortKey: SortKey)
      modifies this`sortKey, this`searchParams
      ensures sortKey == nextSortKey && Synced()
    {
      sortKey := nextSortKey;
      SyncSearchParams(query, nextSortKey, sortOrder);
    }

    method ToggleSortOrder()
      modifies this`sortOrder, this`searchParams
      ensures sortOrder == Flipped(old(sortOrder)) && Synced()
    {
      var nextOrder := Flipped(sortOrder);
      sortOrder := nextOrder;
      SyncSearchParams(query, sortKey, nextOrder);
    }

    /** The featured batch on mount; the random batch absorbs its own failures. */
    method LoadFeatured(respond: nat -> Settled<MealsBody>)
      modifies this`featuredMeals, this`error
      ensures featuredMeals == GetRandomMeals(FeaturedCount, respond) && error == None
    {
      featuredMeals := GetRandomMeals(FeaturedCount, respond);
      error := None;
    }

    /** The debounced search for the current query, once it has settled. */
    method RunSearch(search: string -> Settled<MealsBody>)
      modifies this`searchResults, this`error
      ensures Blank(query) ==> searchResults == [] && error == None
      ensures SearchMeals(query, search).Rejected? ==> searchResults == [] && error == Some(SearchFailed)
      ensures SearchMeals(query, search).Fulfilled? ==> searchResults == SearchMeals(query, search).value && error == None
    {
      var trimmedQuery := Trim(query);
      if trimmedQuery == [] {
        searchResults := [];
        error := None;
        return;
      }
      TrimIdempotent(query);
      match SearchMeals(trimmedQuery, search) {
        case Rejected =>
          error := Some(SearchFailed);
          searchResults := [];
        case Fulfilled(meals) =>
          searchResults := meals;
          error := None;
      }
    }

    /** `displayMeals` over the view's state cells. */
    function Display(): (r: seq<MealSummary>)
      reads this
      ensures multiset(r) == multiset(if Blank(query) then featuredMeals else searchResults)
      ensures forall i, j :: 0 <= i < j < |r| ==> Compare(r[i], r[j], sortKey, sortOrder) <= 0
    {
      DisplayMeals(query, searchResults, featuredMeals, sortKey, sortOrder)
    }

    /** The `state` of each rendered link, in display order. */
    function Links(): (r: seq<DetailState>)
      reads this
      ensures |r| == |Display()|
      ensures forall k :: 0 <= k < |r| ==>
        r[k].index == Some(k) && r[k].origin == Some(if Blank(query) then "featured" else "search") &&
        r[k].list.Some? && |r[k].list.value| == |r| && r[k].list.value[k] == Display()[k].id
    {
      LinkStates(Display(), Origin(query))
    }
  }

  /** The URL a handler leaves behind restores the handler's state on reload, query trimmed. */
  lemma SyncedRestores(query: string, key: SortKey, order: SortOrder, params: map<string, string>)
    requires params == Encode(QueryState(query, key, order))
    ensures Decode(params) == QueryState(Trim(query), key, order)
  {
    DecodeEncode(QueryState(query, key, order));
  }
}
