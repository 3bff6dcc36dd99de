/** The bar chart of claims by status (`ClaimsChartComponent`): a `Map` from status
    to count, seeded with every enumeration value at zero, then incremented once
    per claim; statuses outside the enumeration (and a missing status) become
    extra keys after the seven known ones, in first-seen order. */
module ClaimsChart {
  import opened Common
  import opened Seqs
  import opened Tally
  import opened ClaimModel

  /** The seven statuses every chart starts with, as map keys. */
  function KnownLabels(): seq<Option<string>> { Map(StatusValues, SomeOf) }

  lemma KnownLabelsDistinct()
    ensures NoDups(KnownLabels())
  {
  }

  /** `processClaimsData`: the keys and values of the status map, in key order. */
  method ProcessClaimsData(claims: seq<Claim>) returns (labels: seq<Option<string>>, data: seq<nat>)
    ensures labels == KeysAfter(KnownLabels(), claims, StatusKey)
    ensures |labels| >= |StatusValues| && forall j :: 0 <= j < |StatusValues| ==> labels[j] == Some(StatusValues[j])
    ensures NoDups(labels)
    ensures |data| == |labels|
    ensures forall j :: 0 <= j < |labels| ==> data[j] == CountKey(claims, StatusKey, labels[j])
    ensures forall i :: 0 <= i < |claims| ==> claims[i].estadoActual in labels
    ensures Sum(data) == |claims|
  {
    KnownLabelsDistinct();
    labels, data := CountInto(KnownLabels(), claims, StatusKey);
    CountsAddUp(claims, StatusKey, labels, data);
  }

  /** When every claim carries an enumeration status, the chart has exactly the
      seven known bars. */
  lemma NoExtraBarsForKnownStatuses(claims: seq<Claim>)
    requires forall i :: 0 <= i < |claims| ==> claims[i].estadoActual in KnownLabels()
    ensures KeysAfter(KnownLabels(), claims, StatusKey) == KnownLabels()
  {
    FilterDropsAll(Map(claims, StatusKey), NotIn(KnownLabels()));
    assert KnownLabels() + [] == KnownLabels();
  }

  /** A claim whose status is outside the enumeration gets a bar of its own after
      the seven known ones. */
  lemma UnknownStatusGetsABar(claims: seq<Claim>, i: nat)
    requires i < |claims| && claims[i].estadoActual !in KnownLabels()
    ensures claims[i].estadoActual in KeysAfter(KnownLabels(), claims, StatusKey)[|KnownLabels()|..]
  {
    var ks := Map(claims, StatusKey);
    assert ks[i] == claims[i].estadoActual;
    assert ks[i] in Filter(ks, NotIn(KnownLabels()));
  }

  datatype ChartState = ChartState(
    labels: seq<Option<string>>,
    data: seq<nat>,
    isLoading: bool,
    error: Option<string>)

  const FailedToLoad: string := "Failed to load claims data"

  /** `loadChartData` before the response arrives. */
  function StartLoading(st: ChartState): (r: ChartState)
    ensures r.isLoading && r.error.None?
    ensures r.labels == st.labels && r.data == st.data
  {
    st.(isLoading := true, error := None)
  }

  /** The `error` callback: the chart keeps its bars and shows the fixed message. */
  function OnLoadError(st: ChartState): (r: ChartState)
    ensures !r.isLoading && r.error == Some(FailedToLoad)
    ensures r.labels == st.labels && r.data == st.data
  {
    st.(isLoading := false, error := Some(FailedToLoad))
  }

  /** The `next` callback. */
  method OnClaimsLoaded(st: ChartState, claims: seq<Claim>) returns (r: ChartState)
    ensures !r.isLoading && r.error == st.error
    ensures r.labels == KeysAfter(KnownLabels(), claims, StatusKey)
    ensures |r.data| == |r.labels|
    ensures forall j :: 0 <= j < |r.labels| ==> r.data[j] == CountKey(claims, StatusKey, r.labels[j])
    ensures Sum(r.data) == |claims|
  {
    var labels, data := ProcessClaimsData(claims);
    r := st.(labels := labels, data := data, isLoading := false);
  }
}
