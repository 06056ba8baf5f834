/**
 * The Cookie Clicker game state and item-picking strategies of
 * poc_clicker_template.py, over exact `real` arithmetic.
 *
 * The build information of poc_clicker_provided (`BuildInfo`) is not part of
 * this model: a strategy sees it as the list of its items, each with a name,
 * a cost and the cookies per second it adds, in `build_items()` order.
 */
module Clicker {
  import opened Wrappers

  /** One history entry: (time, item bought or `None`, its cost, total cookies at that time). */
  datatype Entry = Entry(time: real, item: Option<string>, cost: real, total: real)

  /** The smallest whole number at least `x`, as `math.ceil`. */
  function Ceil(x: real): (n: int)
    ensures x <= n as real < x + 1.0
  {
    -((-x).Floor)
  }

  /** `b` times the ceiling of `a / b` reaches `a`, and one step less does not. */
  lemma CeilDivBounds(a: real, b: real)
    requires b > 0.0
    ensures b * Ceil(a / b) as real >= a
    ensures b * (Ceil(a / b) - 1) as real < a
  {
    var q := a / b;
    var n := Ceil(q);
    ScaleAbove(b, q, a, n as real);
    ScaleBelow(b, q, a, (n - 1) as real);
  }

  lemma ScaleAbove(b: real, q: real, a: real, n: real)
    requires b > 0.0 && b * q == a && q <= n
    ensures b * n >= a
  {
    assert b * n - a == b * (n - q);
    assert b * (n - q) >= 0.0;
  }

  lemma ScaleBelow(b: real, q: real, a: real, m: real)
    requires b > 0.0 && b * q == a && m < q
    ensures b * m < a
  {
    assert a - b * m == b * (q - m);
    assert b * (q - m) > 0.0;
  }

  class ClickerState {
    var totalCookies: real
    var currentCookies: real
    var currentTime: real
    var currentCps: real
    var history: seq<Entry>

    /**
     * What the game keeps true as long as every cost and every added rate is
     * non-negative: cookies in hand never exceed the cookies ever made, the
     * rate stays at least 1, and the history starts with the initial entry and
     * is in time order, never later than now and never above the total.
     */
    ghost predicate Sound()
      reads this
    {
      && 0.0 <= currentCookies <= totalCookies
      && 0.0 <= currentTime
      && currentCps >= 1.0
      && |history| >= 1
      && history[0] == Entry(0.0, None, 0.0, 0.0)
      && (forall i, j :: 0 <= i < j < |history| ==> history[i].time <= history[j].time)
      && (forall i :: 0 <= i < |history| ==> history[i].time <= currentTime && history[i].total <= totalCookies)
    }

    /** `__init__`: time 0, no cookies, one cookie per second, and the initial history entry. */
    constructor ()
      ensures totalCookies == 0.0 && currentCookies == 0.0 && currentTime == 0.0 && currentCps == 1.0
      ensures history == [Entry(0.0, None, 0.0, 0.0)]
      ensures Sound()
    {
      totalCookies := 0.0;
      currentCookies := 0.0;
      currentTime := 0.0;
      currentCps := 1.0;
      history := [Entry(0.0, None, 0.0, 0.0)];
    }

    function GetCookies(): real
      reads this
    {
      currentCookies
    }

    function GetCps(): real
      reads this
    {
      currentCps
    }

    function GetTime(): real
      reads this
    {
      currentTime
    }

    function GetHistory(): seq<Entry>
      reads this
    {
      history
    }

    /**
     * `time_until`: the whole number of seconds after which the cookies in
     * hand reach `cookies` at the current rate.
     */
    function TimeUntil(cookies: real): (t: real)
      reads this
      requires currentCps > 0.0
      ensures t >= 0.0 && t == t.Floor as real
      ensures cookies <= currentCookies ==> t == 0.0
      ensures cookies > currentCookies ==>
        currentCookies + currentCps * t >= cookies && currentCookies + currentCps * (t - 1.0) < cookies
    {
      if cookies <= currentCookies then 0.0
      else
        CeilDivBounds(cookies - currentCookies, currentCps);
        Ceil((cookies - currentCookies) / currentCps) as real
    }

    /** `wait`: a positive time passes and the cookies made in it are added; otherwise nothing happens. */
    method Wait(time: real)
      modifies this
      ensures time <= 0.0 ==> unchanged(this)
      ensures time > 0.0 ==>
        && currentTime == old(currentTime) + time
        && currentCookies == old(currentCookies) + old(currentCps) * time
        && totalCookies == old(totalCookies) + old(currentCps) * time
        && currentCps == old(currentCps)
        && history == old(history)
      ensures old(Sound()) ==> Sound()
    {
      if time <= 0.0 {
        return;
      } else {
        currentTime := GetTime() + time;
        currentCookies := currentCookies + GetCps() * time;
        totalCookies := totalCookies + GetCps() * time;
      }
    }

    /**
     * `buy_item`: an affordable item is paid for, raises the rate and is
     * recorded in the history; an item costing more than the cookies in hand
     * changes nothing.
     */
    method BuyItem(itemName: string, cost: real, additionalCps: real)
      modifies this
      ensures cost > old(currentCookies) ==> unchanged(this)
      ensures cost <= old(currentCookies) ==>
        && currentCookies == old(currentCookies) - cost
        && currentCps == old(currentCps) + additionalCps
        && history == old(history) + [Entry(old(currentTime), Some(itemName), cost, old(totalCookies))]
        && currentTime == old(currentTime)
        && totalCookies == old(totalCookies)
      ensures old(Sound()) && cost >= 0.0 && additionalCps >= 0.0 ==> Sound()
    {
      if cost > GetCookies() {
        return;
      } else {
        currentCookies := currentCookies - cost;
        currentCps := currentCps + additionalCps;
        history := history + [Entry(GetTime(), Some(itemName), cost, totalCookies)];
      }
    }

    /**
     * The step `simulate_clicker` takes before buying: wait `time_until(cost)`
     * seconds. Afterwards the item is affordable.
     */
    method WaitFor(cost: real)
      requires currentCps > 0.0
      modifies this
      ensures currentTime == old(currentTime) + old(TimeUntil(cost))
      ensures currentCookies == old(currentCookies) + old(currentCps) * old(TimeUntil(cost))
      ensures totalCookies == old(totalCookies) + old(currentCps) * old(TimeUntil(cost))
      ensures currentCookies >= cost
      ensures history == old(history) && currentCps == old(currentCps)
      ensures old(Sound()) ==> Sound()
    {
      var timeNeeded := TimeUntil(cost);
      Wait(timeNeeded);
    }
  }

  // ---------------------------------------------------------------------------
  // Strategies

  /** An entry of `build_info`: its name, cost and the cookies per second it adds. */
  datatype Item = Item(name: string, cost: real, cps: real)

  /** The cookies a strategy can count on: those in hand plus those made in the time left. */
  function Budget(cookies: real, cps: real, timeLeft: real): (b: real)
    ensures cps >= 0.0 && timeLeft >= 0.0 ==> b >= cookies
    ensures cps > 0.0 ==> (b > cookies <==> timeLeft > 0.0)
  {
    cookies + cps * timeLeft
  }

  predicate Affordable(items: seq<Item>, budget: real, i: int)
  {
    0 <= i < |items| && items[i].cost <= budget
  }

  /** Item `i` is affordable, no affordable item is cheaper, and no later affordable item costs as little. */
  ghost predicate IsCheapest(items: seq<Item>, budget: real, i: int)
  {
    && Affordable(items, budget, i)
    && (forall j :: Affordable(items, budget, j) ==> items[i].cost <= items[j].cost)
    && (forall j :: i < j && Affordable(items, budget, j) ==> items[i].cost < items[j].cost)
  }

  /** Item `i` is affordable, no affordable item costs more, and no earlier affordable item costs as much. */
  ghost predicate IsPriciest(items: seq<Item>, budget: real, i: int)
  {
    && Affordable(items, budget, i)
    && (forall j :: Affordable(items, budget, j) ==> items[j].cost <= items[i].cost)
    && (forall j :: j < i && Affordable(items, budget, j) ==> items[j].cost < items[i].cost)
  }

  /** The rate an item adds per cookie it costs. */
  function Ratio(item: Item): real
    requires item.cost != 0.0
  {
    item.cps / item.cost
  }

  /** Every item the budget covers has a non-zero cost, so its ratio is defined. */
  ghost predicate RatiosDefined(items: seq<Item>, budget: real)
  {
    forall j :: Affordable(items, budget, j) ==> items[j].cost != 0.0
  }

  /** Item `i` is affordable, no affordable item has a better ratio, and no later one has as good a ratio. */
  ghost predicate IsBestRatio(items: seq<Item>, budget: real, i: int)
    requires RatiosDefined(items, budget)
  {
    && Affordable(items, budget, i)
    && (forall j :: Affordable(items, budget, j) ==> Ratio(items[j]) <= Ratio(items[i]))
    && (forall j :: i < j && Affordable(items, budget, j) ==> Ratio(items[j]) < Ratio(items[i]))
  }

  /** Python's `float('-inf')` as the starting bound of a running maximum. */
  datatype Bound = NegInfinity | Finite(value: real)

  predicate Exceeds(x: real, b: Bound)
  {
    b.NegInfinity? || x > b.value
  }

  predicate Reaches(x: real, b: Bound)
  {
    b.NegInfinity? || x >= b.value
  }

  /** `strategy_cursor_broken`: always the Cursor, affordable or not. */
  function StrategyCursorBroken(cookies: real, cps: real, history: seq<Entry>, timeLeft: real, buildInfo: seq<Item>): (r: Option<string>)
    ensures r == Some("Cursor")
  {
    Some("Cursor")
  }

  /** `strategy_none`: never buys anything. */
  function StrategyNone(cookies: real, cps: real, history: seq<Entry>, timeLeft: real, buildInfo: seq<Item>): (r: Option<string>)
    ensures r == None
  {
    None
  }

  /**
   * `strategy_cheap`: nothing when no item fits the budget, otherwise the
   * cheapest item that does, the last listed among equally cheap ones.
   */
  method StrategyCheap(cookies: real, cps: real, history: seq<Entry>, timeLeft: real, buildInfo: seq<Item>)
    returns (itemName: Option<string>)
    ensures itemName == None <==> forall j :: !Affordable(buildInfo, Budget(cookies, cps, timeLeft), j)
    ensures itemName != None ==>
      exists i :: IsCheapest(buildInfo, Budget(cookies, cps, timeLeft), i) && itemName == Some(buildInfo[i].name)
  {
    var totalCookies := cookies + cps * timeLeft;
    var minVal := totalCookies;
    itemName := None;
    ghost var best := -1;
    for k := 0 to |buildInfo|
      invariant itemName == None <==> forall j :: 0 <= j < k ==> !Affordable(buildInfo, totalCookies, j)
      invariant itemName != None ==>
        && 0 <= best < k && Affordable(buildInfo, totalCookies, best)
        && itemName == Some(buildInfo[best].name) && minVal == buildInfo[best].cost
        && (forall j :: 0 <= j < k && Affordable(buildInfo, totalCookies, j) ==> minVal <= buildInfo[j].cost)
        && (forall j :: best < j < k && Affordable(buildInfo, totalCookies, j) ==> minVal < buildInfo[j].cost)
      invariant itemName == None ==> minVal == totalCookies
    {
      var itemCost := buildInfo[k].cost;
      if itemCost <= totalCookies {
        assert Affordable(buildInfo, totalCookies, k);
        if itemCost <= minVal {
          minVal := itemCost;
          itemName := Some(buildInfo[k].name);
          best := k;
        }
      }
    }
    if itemName != None {
      assert IsCheapest(buildInfo, totalCookies, best);
      assert Affordable(buildInfo, Budget(cookies, cps, timeLeft), best);
    } else {
      assert forall j :: !Affordable(buildInfo, totalCookies, j);
    }
  }

  /**
   * `strategy_expensive`: nothing when no item fits the budget, otherwise the
   * most expensive item that does, the first listed among equally dear ones.
   */
  method StrategyExpensive(cookies: real, cps: real, history: seq<Entry>, timeLeft: real, buildInfo: seq<Item>)
    returns (itemName: Option<string>)
    ensures itemName == None <==> forall j :: !Affordable(buildInfo, Budget(cookies, cps, timeLeft), j)
    ensures itemName != None ==>
      exists i :: IsPriciest(buildInfo, Budget(cookies, cps, timeLeft), i) && itemName == Some(buildInfo[i].name)
  {
    var totalCookies := cookies + cps * timeLeft;
    var maxVal := NegInfinity;
    itemName := None;
    ghost var best := -1;
    for k := 0 to |buildInfo|
      invariant itemName == None <==> forall j :: 0 <= j < k ==> !Affordable(buildInfo, totalCookies, j)
      invariant itemName == None <==> maxVal == NegInfinity
      invariant itemName != None ==>
        && 0 <= best < k && Affordable(buildInfo, totalCookies, best)
        && itemName == Some(buildInfo[best].name) && maxVal == Finite(buildInfo[best].cost)
        && (forall j :: 0 <= j < k && Affordable(buildInfo, totalCookies, j) ==> buildInfo[j].cost <= maxVal.value)
        && (forall j :: 0 <= j < best && Affordable(buildInfo, totalCookies, j) ==> buildInfo[j].cost < maxVal.value)
    {
      var itemCost := buildInfo[k].cost;
      if itemCost <= totalCookies {
        assert Affordable(buildInfo, totalCookies, k);
        if Exceeds(itemCost, maxVal) {
          maxVal := Finite(itemCost);
          itemName := Some(buildInfo[k].name);
          best := k;
        }
      }
    }
    if itemName != None {
      assert IsPriciest(buildInfo, totalCookies, best);
      assert Affordable(buildInfo, Budget(cookies, cps, timeLeft), best);
    } else {
      assert forall j :: !Affordable(buildInfo, totalCookies, j);
    }
  }

  /**
   * `strategy_best`: nothing when no item fits the budget, otherwise the
   * affordable item adding the most cookies per second per cookie spent, the
   * last listed among equally good ones. The source divides by each
   * affordable item's cost, so those costs must not be zero.
   */
  method StrategyBest(cookies: real, cps: real, history: seq<Entry>, timeLeft: real, buildInfo: seq<Item>)
    returns (itemName: Option<string>)
    requires RatiosDefined(buildInfo, Budget(cookies, cps, timeLeft))
    ensures itemName == None <==> forall j :: !Affordable(buildInfo, Budget(cookies, cps, timeLeft), j)
    ensures itemName != None ==>
      exists i :: IsBestRatio(buildInfo, Budget(cookies, cps, timeLeft), i) && itemName == Some(buildInfo[i].name)
  {
    var totalCookies := cookies + cps * timeLeft;
    var bestCpsToCostRatio := NegInfinity;
    itemName := None;
    ghost var best := -1;
    for k := 0 to |buildInfo|
      invariant itemName == None <==> forall j :: 0 <= j < k ==> !Affordable(buildInfo, totalCookies, j)
      invariant itemName == None <==> bestCpsToCostRatio == NegInfinity
      invariant itemName != None ==>
        && 0 <= best < k && Affordable(buildInfo, totalCookies, best)
        && itemName == Some(buildInfo[best].name) && bestCpsToCostRatio == Finite(Ratio(buildInfo[best]))
        && (forall j :: 0 <= j < k && Affordable(buildInfo, totalCookies, j) ==> Ratio(buildInfo[j]) <= bestCpsToCostRatio.value)
        && (forall j :: best < j < k && Affordable(buildInfo, totalCookies, j) ==> Ratio(buildInfo[j]) < bestCpsToCostRatio.value)
    {
      var itemCost := buildInfo[k].cost;
      if itemCost <= totalCookies {
        assert Affordable(buildInfo, totalCookies, k);
        var cpsToCostRatio := buildInfo[k].cps / (itemCost * 1.0);
        if Reaches(cpsToCostRatio, bestCpsToCostRatio) {
          bestCpsToCostRatio := Finite(cpsToCostRatio);
          itemName := Some(buildInfo[k].name);
          best := k;
        }
      }
    }
    if itemName != None {
      assert IsBestRatio(buildInfo, totalCookies, best);
    }
  }

  // ---------------------------------------------------------------------------
  // Each selection rule picks one item at most.

  lemma CheapestIsUnique(items: seq<Item>, budget: real, i: int, j: int)
    requires IsCheapest(items, budget, i) && IsCheapest(items, budget, j)
    ensures i == j
  {
  }

  lemma PriciestIsUnique(items: seq<Item>, budget: real, i: int, j: int)
    requires IsPriciest(items, budget, i) && IsPriciest(items, budget, j)
    ensures i == j
  {
  }

  lemma BestRatioIsUnique(items: seq<Item>, budget: real, i: int, j: int)
    requires RatiosDefined(items, budget)
    requires IsBestRatio(items, budget, i) && IsBestRatio(items, budget, j)
    ensures i == j
  {
  }
}
