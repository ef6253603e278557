/** The bar chart's data (`createFrequencyChart` in static/script.js): the ten
    most frequent words longer than two characters, as parallel label and
    value sequences for the charting library. */
module FrequencyChart {
  import opened Wrappers
  import opened Seqs
  import opened Ranking

  const MaxBars: nat := 10

  /** The chart's only filter: longer than two characters, any count. */
  predicate LongWord(e: Entry) {
    |e.word| > 2
  }

  datatype ChartData = ChartData(labels: seq<string>, data: seq<int>)

  /** `None` when there is no frequency object or it has no keys (no chart is
      drawn); otherwise the top entries split into labels and values. A table
      with keys but no long word still yields a chart, with no bars. */
  function BuildChart(table: Option<seq<Entry>>): (chart: Option<ChartData>)
    ensures chart.None? <==> table.None? || table.value == []
    ensures chart.Some? ==>
      var long := Filter(table.value, LongWord);
      var labels, data := chart.value.labels, chart.value.data;
      && |labels| == |data| == Min(MaxBars, |long|)
      && (forall i :: 0 <= i < |labels| ==> Entry(labels[i], data[i]) == TopN(long, MaxBars)[i])
      && (forall i :: 0 <= i < |labels| ==> |labels[i]| > 2 && Entry(labels[i], data[i]) in table.value)
      && (forall i, j :: 0 <= i < j < |data| ==> data[i] >= data[j])
      && (forall i, y :: 0 <= i < |data| && y in long && IsLeftOut(y, labels, data) ==> data[i] >= y.count)
  {
    if table.None? || table.value == [] then None
    else
      var long := Filter(table.value, LongWord);
      var top := TopN(long, MaxBars);
      var labels := Map((e: Entry) => e.word, top);
      var data := Map((e: Entry) => e.count, top);
      ChartFromTop(table.value, long, top, labels, data);
      Some(ChartData(labels, data))
  }

  lemma ChartFromTop(s: seq<Entry>, long: seq<Entry>, top: seq<Entry>, labels: seq<string>, data: seq<int>)
    requires long == Filter(s, LongWord)
    requires |top| == Min(MaxBars, |long|) && SortedDesc(top)
    requires multiset(top) <= multiset(long)
    requires forall x, y :: x in top && y in multiset(long) - multiset(top) ==> x.count >= y.count
    requires |labels| == |data| == |top|
    requires forall i :: 0 <= i < |top| ==> labels[i] == top[i].word && data[i] == top[i].count
    ensures forall i :: 0 <= i < |labels| ==> Entry(labels[i], data[i]) == top[i]
    ensures forall i :: 0 <= i < |labels| ==> |labels[i]| > 2 && Entry(labels[i], data[i]) in s
    ensures forall i, j :: 0 <= i < j < |data| ==> data[i] >= data[j]
    ensures forall i, y :: 0 <= i < |data| && y in long && IsLeftOut(y, labels, data) ==> data[i] >= y.count
  {
    assert forall i :: 0 <= i < |top| ==> Entry(labels[i], data[i]) == top[i];
    TopBarsFromTable(s, long, top);
    forall i, y | 0 <= i < |data| && y in long && IsLeftOut(y, labels, data) ensures data[i] >= y.count {
      assert y !in top;
    }
  }

  /** No bar shows the entry `y`. */
  predicate IsLeftOut(y: Entry, labels: seq<string>, data: seq<int>)
    requires |labels| == |data|
  {
    forall j :: 0 <= j < |labels| ==> Entry(labels[j], data[j]) != y
  }

  lemma TopBarsFromTable(s: seq<Entry>, long: seq<Entry>, top: seq<Entry>)
    requires long == Filter(s, LongWord)
    requires multiset(top) <= multiset(long)
    requires forall x, y :: x in top && y in multiset(long) - multiset(top) ==> x.count >= y.count
    ensures forall i :: 0 <= i < |top| ==> LongWord(top[i]) && top[i] in s
    ensures forall i, y :: 0 <= i < |top| && y in long && y !in top ==> top[i].count >= y.count
  {
    forall i | 0 <= i < |top| ensures LongWord(top[i]) && top[i] in s {
      assert top[i] in multiset(long);
      assert multiset(long)[top[i]] <= multiset(s)[top[i]];
    }
    forall i, y | 0 <= i < |top| && y in long && y !in top ensures top[i].count >= y.count {
      assert top[i] in top;
      assert y in multiset(long) - multiset(top);
    }
  }
}
