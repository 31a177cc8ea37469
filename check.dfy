/** check_bestbuy (main.py:29-72), with the browser abstracted away: the page
    is the sequence of items the lookups of main.py:49-51 produce, or None when
    loading the page failed (main.py:64-65). */
module Check {
  import opened Wrappers
  import opened Price
  import opened Alert

  /** The two texts read from one product entry (main.py:49-51). */
  datatype Listing = Listing(title: string, priceText: string)

  /** An entry; None when one of its lookups raised (main.py:61-63). */
  type Item = Option<Listing>

  /** What main.py:48-63 makes of one entry: its block when its lookups
      succeeded, its price text parses and the price is strictly below the
      threshold, and nothing otherwise. */
  function Outcome(item: Item): (r: Option<string>)
    ensures r.Some? <==>
      item.Some? && ParsePrice(item.value.priceText).Some?
      && ParsePrice(item.value.priceText).value < AlertThreshold
    ensures r.Some? ==> r.value == Block(item.value.title, ParsePrice(item.value.priceText).value)
  {
    match item
    case None => None
    case Some(listing) =>
      match ParsePrice(listing.priceText)
      case None => None
      case Some(price) => if price < AlertThreshold then Some(Block(listing.title, price)) else None
  }

  /** The outcome of every entry, in entry order. */
  function Outcomes(items: seq<Item>): (os: seq<Option<string>>)
    ensures |os| == |items|
    ensures forall i :: 0 <= i < |items| ==> os[i] == Outcome(items[i])
  {
    if items == [] then [] else Outcomes(items[..|items| - 1]) + [Outcome(items[|items| - 1])]
  }

  /** The values present in a sequence of options, in order. */
  function Present(os: seq<Option<string>>): (r: seq<string>)
    ensures |r| <= |os|
  {
    if os == [] then []
    else
      var last := os[|os| - 1];
      Present(os[..|os| - 1]) + if last.Some? then [last.value] else []
  }

  lemma {:induction false} PresentAppend(a: seq<Option<string>>, b: seq<Option<string>>)
    ensures Present(a + b) == Present(a) + Present(b)
    decreases |b|
  {
    if b == [] {
      assert a + b == a;
    } else {
      var n := |b|;
      assert (a + b)[..|a + b| - 1] == a + b[..n - 1];
      PresentAppend(a, b[..n - 1]);
    }
  }

  /** The positions of the values present in a sequence of options. */
  function PresentIndices(os: seq<Option<string>>): seq<nat>
  {
    if os == [] then []
    else
      var n := |os|;
      PresentIndices(os[..n - 1]) + if os[n - 1].Some? then [n - 1] else []
  }

  /** `Present` keeps exactly the values present, one each, in order. */
  lemma {:induction false} PresentAt(os: seq<Option<string>>)
    ensures var q := PresentIndices(os);
      |q| == |Present(os)|
      && (forall k :: 0 <= k < |q| ==> q[k] < |os| && os[q[k]] == Some(Present(os)[k]))
      && (forall k, l :: 0 <= k < l < |q| ==> q[k] < q[l])
      && (forall i :: 0 <= i < |os| && os[i].Some? ==> i in q)
  {
    if os != [] {
      var n := |os|;
      var pre := os[..n - 1];
      PresentAt(pre);
      var qp, q := PresentIndices(pre), PresentIndices(os);
      var ap, a := Present(pre), Present(os);
      assert q == qp + if os[n - 1].Some? then [n - 1] else [];
      assert a == ap + if os[n - 1].Some? then [os[n - 1].value] else [];
      forall k | 0 <= k < |qp| ensures q[k] == qp[k] && a[k] == ap[k] && pre[qp[k]] == os[qp[k]] {
      }
      forall i | 0 <= i < n - 1 ensures pre[i] == os[i] {
      }
    }
  }

  /** The blocks of a run of entries (the contents of `matches` after the loop
      of main.py:47-63): at most one block per entry, and none without
      entries. `AlertsFromOutcomes` says which blocks they are. */
  function Alerts(items: seq<Item>): (r: seq<string>)
    ensures |r| <= |items|
    ensures items == [] ==> r == []
  {
    Present(Outcomes(items))
  }

  /** The blocks are exactly those of the entries that produce one, one block
      per entry, in entry order. */
  lemma AlertsFromOutcomes(items: seq<Item>)
    ensures var q := PresentIndices(Outcomes(items));
      |q| == |Alerts(items)|
      && (forall k :: 0 <= k < |q| ==> q[k] < |items| && Outcome(items[q[k]]) == Some(Alerts(items)[k]))
      && (forall k, l :: 0 <= k < l < |q| ==> q[k] < q[l])
      && (forall i :: 0 <= i < |items| && Outcome(items[i]).Some? ==> i in q)
  {
    PresentAt(Outcomes(items));
  }

  /** Entries are handled independently: the blocks of two runs of entries are
      the blocks of each, one after the other. */
  lemma AlertsAppend(a: seq<Item>, b: seq<Item>)
    ensures Alerts(a + b) == Alerts(a) + Alerts(b)
  {
    OutcomesAppend(a, b);
    PresentAppend(Outcomes(a), Outcomes(b));
  }

  lemma {:induction false} OutcomesAppend(a: seq<Item>, b: seq<Item>)
    ensures Outcomes(a + b) == Outcomes(a) + Outcomes(b)
    decreases |b|
  {
    if b == [] {
      assert a + b == a;
    } else {
      var n := |b|;
      assert (a + b)[..|a + b| - 1] == a + b[..n - 1];
      assert (a + b)[|a + b| - 1] == b[n - 1];
      OutcomesAppend(a, b[..n - 1]);
    }
  }

  /** An entry that produces no block contributes nothing and does not stop
      later entries. */
  lemma SkippedItem(a: seq<Item>, x: Item, b: seq<Item>)
    requires Outcome(x) == None
    ensures Alerts(a + [x] + b) == Alerts(a) + Alerts(b)
  {
    AlertsAppend(a + [x], b);
    AlertsAppend(a, [x]);
    AlertsSingle(x);
  }

  /** A listing shown in the store's format gets a block exactly when its price
      is strictly below the threshold, and the block shows that price. */
  lemma OutcomeDisplayed(title: string, c: nat)
    ensures Outcome(Some(Listing(title, Displayed(c))))
         == if c < AlertThreshold then Some(Block(title, c)) else None
  {
    ParseDisplayed(c);
  }

  /** The filter is strict (main.py:11, 56). */
  lemma ThresholdIsStrict(title: string)
    ensures Outcome(Some(Listing(title, "$1,200.00"))) == None
    ensures Outcome(Some(Listing(title, "$1,199.99"))) == Some(Block(title, 119999))
  {
    assert Displayed(120000) == "$1,200.00";
    assert Displayed(119999) == "$1,199.99";
    OutcomeDisplayed(title, 120000);
    OutcomeDisplayed(title, 119999);
  }

  /** An entry whose lookups raised is skipped and the loop goes on
      (main.py:61-63). */
  lemma FailedLookupSkipped(a: seq<Item>, b: seq<Item>)
    ensures Alerts(a + [None] + b) == Alerts(a) + Alerts(b)
  {
    SkippedItem(a, None, b);
  }

  /** An entry whose price text holds no price, such as "Call for price", is
      skipped and the loop goes on (main.py:59-60). */
  lemma UnparsableSkipped(a: seq<Item>, title: string, text: string, b: seq<Item>)
    requires ParsePrice(text) == None
    ensures Alerts(a + [Some(Listing(title, text))] + b) == Alerts(a) + Alerts(b)
  {
    SkippedItem(a, Some(Listing(title, text)), b);
  }

  /** main.py:47-63: one pass over the entries, appending a block for each
      qualifying one. */
  method CollectMatches(items: seq<Item>) returns (matches: seq<string>)
    ensures matches == Alerts(items)
  {
    matches := [];
    for i := 0 to |items|
      invariant matches == Alerts(items[..i])
    {
      AlertsSnoc(items, i);
      var item := items[i];
      if item.Some? {
        var price := ParsePrice(item.value.priceText);
        if price.Some? {
          if price.value < AlertThreshold {
            matches := matches + [Block(item.value.title, price.value)];
          }
        }
      }
    }
    assert items[..|items|] == items;
  }

  /** One more entry adds its block, if it produces one, after the blocks of
      the entries before it. */
  lemma AlertsSnoc(items: seq<Item>, i: nat)
    requires i < |items|
    ensures Alerts(items[..i + 1])
         == Alerts(items[..i]) + if Outcome(items[i]).Some? then [Outcome(items[i]).value] else []
  {
    assert items[..i + 1][..i] == items[..i];
    assert Outcomes(items[..i + 1]) == Outcomes(items[..i]) + [Outcome(items[i])];
  }

  /** check_bestbuy: the blocks found and what is done about them. */
  method CheckBestBuy(page: Option<seq<Item>>, webhook: Option<string>)
    returns (matches: seq<string>, dispatch: Dispatch)
    ensures matches == if page.Some? then Alerts(page.value) else []
    ensures dispatch == Decide(matches, webhook)
  {
    matches := [];
    if page.Some? {
      matches := CollectMatches(page.value);
    }
    if matches != [] {
      dispatch := SendDiscordAlert(matches, webhook);
    } else {
      dispatch := NothingFound;
    }
  }

  /** Three entries shown in the store's format, the first two priced below the
      threshold and the third not (as $999.99, $1,199.00 and $1,299.00 are),
      give two blocks: those of the first two, in order. */
  lemma ThreeItemScenario(ta: string, tb: string, tc: string, ca: nat, cb: nat, cc: nat)
    requires ca < AlertThreshold && cb < AlertThreshold && cc >= AlertThreshold
    ensures Alerts([Some(Listing(ta, Displayed(ca))), Some(Listing(tb, Displayed(cb))),
                    Some(Listing(tc, Displayed(cc)))])
         == [Block(ta, ca), Block(tb, cb)]
  {
    OutcomeDisplayed(ta, ca);
    OutcomeDisplayed(tb, cb);
    OutcomeDisplayed(tc, cc);
    AlertsOfTwoAndSkip(Some(Listing(ta, Displayed(ca))), Some(Listing(tb, Displayed(cb))),
                       Some(Listing(tc, Displayed(cc))), Block(ta, ca), Block(tb, cb));
  }

  /** Two entries that produce a block followed by one that does not. */
  lemma AlertsOfTwoAndSkip(x: Item, y: Item, z: Item, first: string, second: string)
    requires Outcome(x) == Some(first) && Outcome(y) == Some(second) && Outcome(z) == None
    ensures Alerts([x, y, z]) == [first, second]
  {
    AlertsOfThree(x, y, z);
    AlertsSingle(x);
    AlertsSingle(y);
    AlertsSingle(z);
  }

  lemma AlertsOfThree(x: Item, y: Item, z: Item)
    ensures Alerts([x, y, z]) == Alerts([x]) + Alerts([y]) + Alerts([z])
  {
    AlertsAppend([x], [y]);
    AlertsAppend([x] + [y], [z]);
    ThreeAsAppends(x, y, z);
  }

  lemma ThreeAsAppends<T>(x: T, y: T, z: T)
    ensures [x] + [y] + [z] == [x, y, z]
  {
  }

  lemma AlertsSingle(x: Item)
    ensures Alerts([x]) == if Outcome(x).Some? then [Outcome(x).value] else []
  {
    var o := Outcome(x);
    var os := [o];
    assert Outcomes([x]) == os;
    assert os[..0] == [];
    assert Present(os) == Present([]) + if o.Some? then [o.value] else [];
  }
}
