/**
 * The root component `App`: a list of items and a three-way filter that the
 * toggle button cycles through (type 0, type 1, everything). The `delay(0)`
 * recompute that `toggle` schedules is a method the environment calls.
 */
module AppRoot {

  /** An item's `type`: 0, 1 or 2. */
  type ItemType = t: int | 0 <= t <= 2

  /** An item of the list; its form controls and scroll subject are not part of this model. */
  datatype Item = Item(text: string, itemType: ItemType)

  /** `a` is `b` with some elements left out and the rest kept in their order. */
  predicate IsSubsequence(a: seq<Item>, b: seq<Item>)
    decreases |b|
  {
    a == [] || (b != [] && ((a[0] == b[0] && IsSubsequence(a[1..], b[1..])) || IsSubsequence(a, b[1..])))
  }

  lemma {:induction false} SubsequenceReflexive(s: seq<Item>)
    ensures IsSubsequence(s, s)
  {
    if s != [] {
      SubsequenceReflexive(s[1..]);
    }
  }

  /**
   * `data.filter(item => item.type === t)`: the items of type `t`, in their
   * order, each as often as it occurs in `data`.
   */
  function OfType(data: seq<Item>, t: int): (r: seq<Item>)
    ensures IsSubsequence(r, data)
    ensures forall i :: 0 <= i < |r| ==> r[i].itemType == t
    ensures forall x :: multiset(r)[x] == if x.itemType == t then multiset(data)[x] else 0
  {
    if data == [] then []
    else
      var rest := OfType(data[1..], t);
      assert data == [data[0]] + data[1..];
      if data[0].itemType == t then
        assert ([data[0]] + rest)[1..] == rest;
        [data[0]] + rest
      else
        rest
  }

  /** `filter < 2 ? data.filter(item => item.type === filter) : [...data]`. */
  function Shown(data: seq<Item>, f: int): seq<Item>
  {
    if f < 2 then OfType(data, f) else data
  }

  /**
   * What the list shows is always an order-preserving selection of the data:
   * for 0 and 1 exactly the items of that type, for 2 all of it.
   */
  lemma ShownSelectsData(data: seq<Item>, f: int)
    requires 0 <= f <= 2
    ensures IsSubsequence(Shown(data, f), data)
    ensures f < 2 ==> forall x :: x in Shown(data, f) <==> x in data && x.itemType == f
    ensures f == 2 ==> Shown(data, f) == data
  {
    if f == 2 {
      SubsequenceReflexive(data);
    } else {
      forall x
        ensures x in Shown(data, f) <==> x in data && x.itemType == f
      {
        assert x in Shown(data, f) <==> multiset(Shown(data, f))[x] > 0;
        assert x in data <==> multiset(data)[x] > 0;
      }
    }
  }

  /** The filter value that follows `f`: 0 to 1, 1 to 2, 2 back to 0. */
  function NextFilter(f: int): int
  {
    if f < 2 then f + 1 else 0
  }

  /** The filter value after `n` toggles from `f`. */
  function FilterAfter(f: int, n: nat): int
  {
    if n == 0 then f else NextFilter(FilterAfter(f, n - 1))
  }

  /** Toggling stays in 0..2 and cycles with period three. */
  lemma {:induction false} FilterCycles(f: int, n: nat)
    requires 0 <= f <= 2
    ensures FilterAfter(f, n) == (f + n) % 3
  {
    if n > 0 {
      FilterCycles(f, n - 1);
    }
  }

  class App {
    const data: seq<Item>
    var filtered: seq<Item>
    var filter: int
    /** `delay(0)` recomputes scheduled by `toggle` that have not run yet. */
    var pendingRecomputes: nat

    ghost predicate Valid()
      reads this
    {
      0 <= filter <= 2 && IsSubsequence(filtered, data)
    }

    /** Starts with filter 2 and an empty list, then toggles once. */
    constructor(data: seq<Item>)
      ensures Valid() && this.data == data
      ensures filter == 0 && filtered == data && pendingRecomputes == 1
    {
      this.data := data;
      filtered := [];
      filter := 2;
      pendingRecomputes := 0;
      new;
      Toggle();
    }

    /**
     * Shows the list for the current filter value, advances the value
     * cyclically and schedules a recompute for the new value.
     */
    method Toggle()
      requires Valid()
      modifies this`filtered, this`filter, this`pendingRecomputes
      ensures Valid()
      ensures filtered == Shown(data, old(filter))
      ensures filter == NextFilter(old(filter))
      ensures pendingRecomputes == old(pendingRecomputes) + 1
    {
      ShownSelectsData(data, filter);
      filtered := Shown(data, filter);
      if filter < 2 {
        filter := filter + 1;
      } else {
        filter := 0;
      }
      pendingRecomputes := pendingRecomputes + 1;
    }

    /** The `delay(0)` callback: shows the list for the filter value as it is when the callback runs. */
    method RunDeferredRecompute()
      requires Valid() && pendingRecomputes > 0
      modifies this`filtered, this`pendingRecomputes
      ensures Valid()
      ensures filtered == Shown(data, filter)
      ensures pendingRecomputes == old(pendingRecomputes) - 1
    {
      ShownSelectsData(data, filter);
      filtered := Shown(data, filter);
      pendingRecomputes := pendingRecomputes - 1;
    }
  }

  /**
   * Start-up: right after construction the filter is 0 and every item is
   * shown; once the scheduled recompute has run, only the items of type 0.
   */
  method StartUp(data: seq<Item>) returns (before: seq<Item>, after: seq<Item>, filter: int)
    ensures before == data
    ensures filter == 0
    ensures after == OfType(data, 0)
    ensures forall x :: x in after <==> x in data && x.itemType == 0
  {
    var app := new App(data);
    before := app.filtered;
    app.RunDeferredRecompute();
    ShownSelectsData(data, 0);
    after, filter := app.filtered, app.filter;
  }
}
