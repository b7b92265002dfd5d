/** Generation by fuel, with shares and ranks, from app/api/presenter.py. */
module FuelMix {
  import opened Sorting
  import Text

  datatype Fuel = Fuel(kind: string, megawatts: real)

  datatype FuelReading = FuelReading(fuel: string, megawatts: real, share: real, rank: nat)

  function MobileFuel(kind: string): string {
    if kind == "pumped_storage" then "storage"
    else if kind in {"coal", "oil", "other", "unknown"} then "other"
    else kind
  }

  function Clamped(mw: real): (r: real)
    ensures r >= 0.0
  {
    if mw < 0.0 then 0.0 else mw
  }

  // ------------------------------------------------------------------
  // What each name adds up to
  // ------------------------------------------------------------------

  /** Labels in order of first appearance. */
  function Labels(readings: seq<Fuel>): seq<string> {
    if readings == [] then [] else
      var init, name := Labels(readings[..|readings| - 1]), MobileFuel(readings[|readings| - 1].kind);
      if name in init then init else init + [name]
  }

  function Amount(readings: seq<Fuel>, name: string): real {
    if readings == [] then 0.0 else
      var last := readings[|readings| - 1];
      Amount(readings[..|readings| - 1], name) + if MobileFuel(last.kind) == name then Clamped(last.megawatts) else 0.0
  }

  /** Everything generated, whatever the fuel. */
  function Generated(readings: seq<Fuel>): real {
    if readings == [] then 0.0
    else Generated(readings[..|readings| - 1]) + Clamped(readings[|readings| - 1].megawatts)
  }

  function SumOver(readings: seq<Fuel>, labels: seq<string>): real {
    if labels == [] then 0.0 else SumOver(readings, labels[..|labels| - 1]) + Amount(readings, labels[|labels| - 1])
  }

  lemma {:induction false} LabelsAre(readings: seq<Fuel>)
    ensures NoDuplicates(Labels(readings))
    ensures forall r :: r in readings ==> MobileFuel(r.kind) in Labels(readings)
    ensures forall l :: l !in Labels(readings) ==> Amount(readings, l) == 0.0
    ensures forall l :: Amount(readings, l) >= 0.0
  {
    if readings != [] {
      LabelsAre(readings[..|readings| - 1]);
      assert readings == readings[..|readings| - 1] + [readings[|readings| - 1]];
    }
  }

  lemma {:induction false} OneMore(readings: seq<Fuel>, labels: seq<string>)
    requires readings != [] && NoDuplicates(labels)
    ensures
      var last := readings[|readings| - 1];
      SumOver(readings, labels) == SumOver(readings[..|readings| - 1], labels)
        + if MobileFuel(last.kind) in labels then Clamped(last.megawatts) else 0.0
  {
    if labels != [] {
      var init, end := labels[..|labels| - 1], labels[|labels| - 1];
      OneMore(readings, init);
      assert labels == init + [end];
      assert end !in init;
    }
  }

  /** Nothing is lost and nothing counted twice between the labels. */
  lemma {:induction false} LabelsConserve(readings: seq<Fuel>)
    ensures SumOver(readings, Labels(readings)) == Generated(readings)
  {
    if readings != [] {
      var init := readings[..|readings| - 1];
      LabelsConserve(init);
      LabelsAre(init);
      LabelsAre(readings);
      OneMore(readings, Labels(readings));
      var labels, name := Labels(init), MobileFuel(readings[|readings| - 1].kind);
      if name !in labels {
        assert Labels(readings)[..|labels|] == labels;
      }
    }
  }

  lemma AggregateStep(readings: seq<Fuel>, i: nat)
    requires i < |readings|
    ensures
      var init, name := Labels(readings[..i]), MobileFuel(readings[i].kind);
      Labels(readings[..i + 1]) == if name in init then init else init + [name]
    ensures forall l ::
      Amount(readings[..i + 1], l)
      == Amount(readings[..i], l) + if MobileFuel(readings[i].kind) == l then Clamped(readings[i].megawatts) else 0.0
  {
    assert readings[..i + 1][..i] == readings[..i];
  }

  /** The dictionary the loop fills. */
  method AggregateGeneration(readings: seq<Fuel>) returns (order: seq<string>, result: map<string, real>)
    ensures order == Labels(readings)
    ensures forall l :: l in order <==> l in result
    ensures forall l :: l in result ==> result[l] == Amount(readings, l)
  {
    order, result := [], map[];
    for i := 0 to |readings|
      invariant order == Labels(readings[..i])
      invariant forall l :: l in order <==> l in result
      invariant forall l :: l in result ==> result[l] == Amount(readings[..i], l)
      invariant forall l :: l !in result ==> Amount(readings[..i], l) == 0.0
    {
      AggregateStep(readings, i);
      var name := MobileFuel(readings[i].kind);
      if name !in result {
        order := order + [name];
      }
      result := result[name := (if name in result then result[name] else 0.0) + Clamped(readings[i].megawatts)];
    }
    assert readings[..|readings|] == readings;
  }

  // ------------------------------------------------------------------
  // Shares and ranks
  // ------------------------------------------------------------------

  type Item = (string, real)

  function Items(readings: seq<Fuel>): seq<Item> {
    var labels := Labels(readings);
    seq(|labels|, (i: nat) requires i < |labels| => (labels[i], Amount(readings, labels[i])))
  }

  /** Largest first, then by name. */
  function ItemLe(): (Item, Item) -> bool {
    (a: Item, b: Item) => a.1 > b.1 || (a.1 == b.1 && Text.Le(a.0, b.0))
  }

  function Sum(items: seq<Item>): real {
    if items == [] then 0.0 else Clamped(items[0].1) + Sum(items[1..])
  }

  function FuelReadings(items: seq<Item>): seq<FuelReading> {
    var total, ordered := Sum(items), Sort(items, ItemLe());
    seq(|ordered|, (i: nat) requires i < |ordered| =>
      FuelReading(ordered[i].0, ordered[i].1, if total != 0.0 then ordered[i].1 / total else 0.0, i + 1))
  }

  function Mix(readings: seq<Fuel>): seq<FuelReading> {
    FuelReadings(Items(readings))
  }

  method PresentMix(readings: seq<Fuel>) returns (mix: seq<FuelReading>)
    ensures mix == Mix(readings)
  {
    var order, generation := AggregateGeneration(readings);
    var items: seq<Item> := [];
    for i := 0 to |order|
      invariant items == Items(readings)[..i]
    {
      items := items + [(order[i], generation[order[i]])];
    }
    assert items == Items(readings);
    mix := FuelReadings(items);
  }

  lemma ItemLeOrders()
    ensures TotalPreorder(ItemLe())
  {
    forall a, b ensures ItemLe()(a, b) || ItemLe()(b, a) {
      Text.LeTotal(a.0, b.0);
    }
    forall a, b, c | ItemLe()(a, b) && ItemLe()(b, c) ensures ItemLe()(a, c) {
      if a.1 == b.1 == c.1 {
        Text.LeTransitive(a.0, b.0, c.0);
      }
    }
  }

  lemma {:induction false} SumInsert(x: Item, s: seq<Item>)
    ensures Sum(Insert(x, s, ItemLe())) == Clamped(x.1) + Sum(s)
  {
    if s != [] && !ItemLe()(x, s[0]) {
      SumInsert(x, s[1..]);
      assert Insert(x, s, ItemLe())[1..] == Insert(x, s[1..], ItemLe());
    } else {
      assert ([x] + s)[1..] == s;
    }
  }

  lemma {:induction false} SumSort(s: seq<Item>)
    ensures Sum(Sort(s, ItemLe())) == Sum(s)
  {
    if s != [] {
      SumSort(s[1..]);
      SumInsert(s[0], Sort(s[1..], ItemLe()));
    }
  }

  lemma {:induction false} SumBounds(s: seq<Item>)
    ensures Sum(s) >= 0.0
    ensures forall i :: 0 <= i < |s| ==> Clamped(s[i].1) <= Sum(s)
  {
    if s != [] {
      SumBounds(s[1..]);
      assert forall i :: 1 <= i < |s| ==> s[i] == s[1..][i - 1];
    }
  }

  lemma {:induction false} SumAppend(s: seq<Item>, x: Item)
    ensures Sum(s + [x]) == Sum(s) + Clamped(x.1)
  {
    if s != [] {
      SumAppend(s[1..], x);
      assert (s + [x])[1..] == s[1..] + [x];
    }
  }

  lemma {:induction false} ItemsSum(readings: seq<Fuel>, n: nat)
    requires n <= |Labels(readings)|
    ensures Sum(Items(readings)[..n]) == SumOver(readings, Labels(readings)[..n])
  {
    if n > 0 {
      var labels := Labels(readings);
      ItemsSum(readings, n - 1);
      LabelsAre(readings);
      assert Items(readings)[..n] == Items(readings)[..n - 1] + [Items(readings)[n - 1]];
      SumAppend(Items(readings)[..n - 1], Items(readings)[n - 1]);
      assert labels[..n][..n - 1] == labels[..n - 1];
    }
  }

  function Megawatts(mix: seq<FuelReading>): real {
    if mix == [] then 0.0 else mix[0].megawatts + Megawatts(mix[1..])
  }

  function Shares(mix: seq<FuelReading>): real {
    if mix == [] then 0.0 else mix[0].share + Shares(mix[1..])
  }

  lemma Part(x: real, total: real)
    requires 0.0 <= x <= total && total > 0.0
    ensures 0.0 <= x / total <= 1.0
  {}

  lemma Combine(x: real, y: real, total: real)
    requires total > 0.0
    ensures x / total + y / total == (x + y) / total
  {}

  /** One presented row for one item. */
  ghost predicate Row(m: FuelReading, item: Item, total: real) {
    && m.fuel == item.0 && m.megawatts == item.1 >= 0.0
    && m.share == (if total != 0.0 then item.1 / total else 0.0)
    && 0.0 <= m.share <= 1.0
  }

  lemma {:induction false} Totals(ordered: seq<Item>, total: real, mix: seq<FuelReading>)
    requires |mix| == |ordered| && total >= 0.0
    requires forall i :: 0 <= i < |mix| ==> Row(mix[i], ordered[i], total)
    ensures Megawatts(mix) == Sum(ordered)
    ensures Shares(mix) == if total != 0.0 then Sum(ordered) / total else 0.0
    ensures total == Sum(ordered) != 0.0 ==> Shares(mix) == 1.0
  {
    if mix != [] {
      assert Row(mix[0], ordered[0], total);
      Totals(ordered[1..], total, mix[1..]);
      if total != 0.0 {
        Combine(ordered[0].1, Sum(ordered[1..]), total);
      }
    }
  }

  lemma OrderedItem(readings: seq<Fuel>, item: Item)
    ensures item in Sort(Items(readings), ItemLe()) <==>
      item.0 in Labels(readings) && item.1 == Amount(readings, item.0)
    ensures item in Sort(Items(readings), ItemLe()) ==> 0.0 <= item.1 <= Sum(Items(readings))
  {
    var items := Items(readings);
    SortPermutes(items, ItemLe());
    LabelsAre(readings);
    SumBounds(items);
    if item.0 in Labels(readings) && item.1 == Amount(readings, item.0) {
      var k :| 0 <= k < |items| && Labels(readings)[k] == item.0;
      assert items[k] == item;
    }
  }

  lemma MixRows(readings: seq<Fuel>)
    ensures |Mix(readings)| == |Labels(readings)| == |Sort(Items(readings), ItemLe())|
    ensures forall i :: 0 <= i < |Mix(readings)| ==>
      Row(Mix(readings)[i], Sort(Items(readings), ItemLe())[i], Sum(Items(readings)))
  {
    var items, mix := Items(readings), Mix(readings);
    var ordered := Sort(items, ItemLe());
    SortPermutes(items, ItemLe());
    forall i | 0 <= i < |mix| ensures Row(mix[i], ordered[i], Sum(items)) {
      OrderedItem(readings, ordered[i]);
      if Sum(items) > 0.0 {
        Part(ordered[i].1, Sum(items));
      }
    }
  }

  /** The presented amounts add up to all that was generated, and the shares to one unless that is nothing. */
  lemma MixAddsUp(readings: seq<Fuel>)
    ensures Megawatts(Mix(readings)) == Generated(readings)
    ensures Shares(Mix(readings)) == if Generated(readings) != 0.0 then 1.0 else 0.0
  {
    var items := Items(readings);
    MixRows(readings);
    ItemsTotal(readings);
    SumSort(items);
    SumBounds(items);
    Totals(Sort(items, ItemLe()), Sum(items), Mix(readings));
  }

  lemma ItemsTotal(readings: seq<Fuel>)
    ensures Sum(Items(readings)) == Generated(readings)
  {
    ItemsSum(readings, |Labels(readings)|);
    assert Items(readings)[..|Labels(readings)|] == Items(readings);
    assert Labels(readings)[..|Labels(readings)|] == Labels(readings);
    LabelsConserve(readings);
  }

  /** Every label is presented exactly once, with what its readings add up to, largest first and then by
      name. */
  lemma MixListsLabels(readings: seq<Fuel>)
    ensures |Mix(readings)| == |Labels(readings)|
    ensures forall m :: m in Mix(readings) ==>
      m.fuel in Labels(readings) && m.megawatts == Amount(readings, m.fuel) && 0.0 <= m.share <= 1.0
    ensures forall l :: l in Labels(readings) ==> exists m :: m in Mix(readings) && m.fuel == l
    ensures forall i, j :: 0 <= i < j < |Mix(readings)| ==> RankedBefore(Mix(readings)[i], Mix(readings)[j])
  {
    var mix, ordered := Mix(readings), Sort(Items(readings), ItemLe());
    MixRows(readings);
    forall m | m in mix
      ensures m.fuel in Labels(readings) && m.megawatts == Amount(readings, m.fuel) && 0.0 <= m.share <= 1.0
    {
      var i :| 0 <= i < |mix| && mix[i] == m;
      assert Row(mix[i], ordered[i], Sum(Items(readings)));
      OrderedItem(readings, ordered[i]);
    }
    forall l | l in Labels(readings) ensures exists m :: m in mix && m.fuel == l {
      var item := (l, Amount(readings, l));
      OrderedItem(readings, item);
      var i :| 0 <= i < |ordered| && ordered[i] == item;
      assert Row(mix[i], ordered[i], Sum(Items(readings)));
      assert mix[i] in mix;
    }
    forall i, j | 0 <= i < j < |mix| ensures RankedBefore(mix[i], mix[j]) {
      MixOrdered(readings, i, j);
    }
  }

  predicate RankedBefore(a: FuelReading, b: FuelReading) {
    && a.rank < b.rank && a.fuel != b.fuel
    && (a.megawatts > b.megawatts || (a.megawatts == b.megawatts && Text.Le(a.fuel, b.fuel)))
  }

  lemma ItemsDistinct(readings: seq<Fuel>)
    ensures NoDuplicates(Sort(Items(readings), ItemLe()))
  {
    var items := Items(readings);
    LabelsAre(readings);
    forall i, j | 0 <= i < j < |items| ensures items[i] != items[j] {
      assert items[i].0 == Labels(readings)[i] && items[j].0 == Labels(readings)[j];
    }
    SortPermutes(items, ItemLe());
    NoDuplicatesPermutes(items, Sort(items, ItemLe()));
  }

  lemma MixOrdered(readings: seq<Fuel>, i: nat, j: nat)
    requires i < j < |Mix(readings)|
    ensures RankedBefore(Mix(readings)[i], Mix(readings)[j])
  {
    var mix, ordered := Mix(readings), Sort(Items(readings), ItemLe());
    MixRows(readings);
    ItemLeOrders();
    SortSorts(Items(readings), ItemLe());
    ItemsDistinct(readings);
    OrderedItem(readings, ordered[i]);
    OrderedItem(readings, ordered[j]);
    assert ItemLe()(ordered[i], ordered[j]);
    assert ordered[i] != ordered[j];
  }

  // ------------------------------------------------------------------
  // In the readings' own terms
  // ------------------------------------------------------------------

  /** Coal, oil and the unknown are presented as other, pumped storage as storage, everything else as itself. */
  predicate PresentedAs(kind: string, name: string) {
    if kind == "pumped_storage" then name == "storage"
    else if kind == "coal" || kind == "oil" || kind == "other" || kind == "unknown" then name == "other"
    else name == kind
  }

  /** What the readings presented under the name produce; one that takes power counts for nothing. */
  function Produced(readings: seq<Fuel>, name: string): real {
    if readings == [] then 0.0 else
      var last := readings[|readings| - 1];
      Produced(readings[..|readings| - 1], name)
      + if PresentedAs(last.kind, name) && last.megawatts > 0.0 then last.megawatts else 0.0
  }

  function ProducedInAll(readings: seq<Fuel>): real {
    if readings == [] then 0.0 else
      var last := readings[|readings| - 1];
      ProducedInAll(readings[..|readings| - 1]) + if last.megawatts > 0.0 then last.megawatts else 0.0
  }

  lemma NameMeans(kind: string, name: string)
    ensures MobileFuel(kind) == name <==> PresentedAs(kind, name)
  {}

  lemma {:induction false} AmountMeans(readings: seq<Fuel>, name: string)
    ensures Amount(readings, name) == Produced(readings, name)
    ensures Generated(readings) == ProducedInAll(readings)
  {
    if readings != [] {
      AmountMeans(readings[..|readings| - 1], name);
      NameMeans(readings[|readings| - 1].kind, name);
    }
  }

  lemma {:induction false} LabelMeans(readings: seq<Fuel>, name: string)
    ensures name in Labels(readings) <==> exists r :: r in readings && PresentedAs(r.kind, name)
  {
    if readings != [] {
      var init, last := readings[..|readings| - 1], readings[|readings| - 1];
      LabelMeans(init, name);
      NameMeans(last.kind, name);
      assert readings == init + [last];
      assert forall r :: r in readings <==> r in init || r == last;
    }
  }

  /** Each presented row: a name that some reading has, what is produced under it, and its share of everything. */
  lemma MixTells(readings: seq<Fuel>, i: nat)
    requires i < |Mix(readings)|
    ensures
      var m, all := Mix(readings)[i], ProducedInAll(readings);
      && m.rank == i + 1 && m.megawatts == Produced(readings, m.fuel)
      && (exists r :: r in readings && PresentedAs(r.kind, m.fuel))
      && m.share == (if all != 0.0 then m.megawatts / all else 0.0)
  {
    var m := Mix(readings)[i];
    MixRows(readings);
    OrderedItem(readings, Sort(Items(readings), ItemLe())[i]);
    ItemsTotal(readings);
    AmountMeans(readings, m.fuel);
    LabelMeans(readings, m.fuel);
  }
}
