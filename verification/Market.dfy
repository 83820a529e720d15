/** Vocabulary shared by the modules of the market-data engine. */
module Market {

  datatype Option<+T> = None | Some(value: T)

  /** One trade. `side` is 0 for a buy and 1 for a sell. */
  datatype Trade = Trade(ts: int, price: real, quantity: real, side: int)

  function Max(a: int, b: int): int {
    if a >= b then a else b
  }

  function Abs(x: real): real {
    if x >= 0.0 then x else -x
  }

  /** The lines of the price grid through `origin`, `box` apart. */
  ghost function GridLine(origin: real, box: real, k: int): real {
    origin + k as real * box
  }

  ghost predicate OnGrid(origin: real, box: real, x: real) {
    exists k: int :: x == GridLine(origin, box, k)
  }

  lemma Inhabitant<T>(s: set<T>) returns (x: T)
    requires s != {}
    ensures x in s
  {
    x :| x in s;
  }

  lemma AppendLast<T>(front: seq<T>, back: seq<T>)
    requires back != []
    ensures front + back == (front + back[..|back|-1]) + [back[|back|-1]]
  {
  }

  /** Total traded quantity. */
  ghost function Quantity(ts: seq<Trade>): real {
    if ts == [] then 0.0 else ts[0].quantity + Quantity(ts[1..])
  }

  lemma QuantityAppend(xs: seq<Trade>, ys: seq<Trade>)
    ensures Quantity(xs + ys) == Quantity(xs) + Quantity(ys)
  {
    if xs == [] {
      assert xs + ys == ys;
    } else {
      assert (xs + ys)[1..] == xs[1..] + ys;
      QuantityAppend(xs[1..], ys);
    }
  }

  /** Highest and lowest traded price. */
  ghost function High(ts: seq<Trade>): real
    requires ts != []
  {
    var n := |ts| - 1;
    if n == 0 || ts[n].price > High(ts[..n]) then ts[n].price else High(ts[..n])
  }

  ghost function Low(ts: seq<Trade>): real
    requires ts != []
  {
    var n := |ts| - 1;
    if n == 0 || ts[n].price < Low(ts[..n]) then ts[n].price else Low(ts[..n])
  }

  /** They are traded prices, and no traded price lies outside. */
  lemma {:induction false} HighLowAre(ts: seq<Trade>)
    requires ts != []
    ensures exists i :: 0 <= i < |ts| && ts[i].price == High(ts)
    ensures exists i :: 0 <= i < |ts| && ts[i].price == Low(ts)
    ensures forall i :: 0 <= i < |ts| ==> Low(ts) <= ts[i].price <= High(ts)
  {
    var n := |ts| - 1;
    if n == 0 {
      assert ts[0].price == High(ts) == Low(ts);
    } else {
      var init := ts[..n];
      HighLowAre(init);
      var h :| 0 <= h < n && init[h].price == High(init);
      var l :| 0 <= l < n && init[l].price == Low(init);
      assert ts[h].price == High(init) && ts[l].price == Low(init);
      assert ts[n].price == High(ts) || ts[h].price == High(ts);
      assert ts[n].price == Low(ts) || ts[l].price == Low(ts);
      assert forall i :: 0 <= i < n ==> ts[i] == init[i];
    }
  }
}
