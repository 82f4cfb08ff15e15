/** The visualizations page: per-chart loading and error maps driven by the
    image's load and error events and the retry button, the image URL, and
    the catalogue of charts the page shows. */
module ChartStatus {
  import opened Wrappers
  import opened Text

  /** `loading` and `errors`, keyed by chart id; both start empty. */
  datatype Charts = Charts(loading: map<string, bool>, errors: map<string, string>)

  const NoCharts := Charts(map[], map[])

  const MsgChartFailed := "Failed to load visualization"

  /** Both maps agree on `k` in `c` and `d`: the same presence and the same
      value. */
  ghost predicate SameAt(c: Charts, d: Charts, k: string) {
    && (k in c.loading <==> k in d.loading)
    && (k in c.loading ==> c.loading[k] == d.loading[k])
    && (k in c.errors <==> k in d.errors)
    && (k in c.errors ==> c.errors[k] == d.errors[k])
  }

  /** The image of chart `id` finished loading. */
  function OnLoad(c: Charts, id: string): (r: Charts)
    ensures id in r.loading && !r.loading[id]
    ensures r.errors == c.errors
    ensures forall k :: k != id ==> SameAt(c, r, k)
  {
    c.(loading := c.loading[id := false])
  }

  /** The image of chart `id` failed to load. */
  function OnError(c: Charts, id: string): (r: Charts)
    ensures id in r.loading && !r.loading[id]
    ensures id in r.errors && r.errors[id] == MsgChartFailed
    ensures forall k :: k != id ==> SameAt(c, r, k)
  {
    Charts(c.loading[id := false], c.errors[id := MsgChartFailed])
  }

  /** The retry button of chart `id`: its error goes and it loads again. */
  function OnRetry(c: Charts, id: string): (r: Charts)
    ensures id in r.loading && r.loading[id]
    ensures id !in r.errors
    ensures forall k :: k != id ==> SameAt(c, r, k)
  {
    Charts(c.loading[id := true], c.errors - {id})
  }

  /** `loading[id] !== false`: a chart nobody has reported on yet counts as
      loading. */
  predicate ShowsSpinner(c: Charts, id: string): (b: bool)
    ensures b <==> id !in c.loading || c.loading[id]
  {
    !(id in c.loading && c.loading[id] == false)
  }

  /** `errors[id]` is truthy: the error panel replaces the image. */
  predicate ShowsError(c: Charts, id: string): (b: bool)
    ensures b ==> id in c.errors
    ensures id in c.errors ==> (b <==> |c.errors[id]| > 0)
  {
    id in c.errors && c.errors[id] != ""
  }

  /** The image is rendered unless the error panel shows, and is opaque
      exactly when the spinner is gone. */
  predicate ShowsImage(c: Charts, id: string): (b: bool)
    ensures b <==> id in c.loading && !c.loading[id] && (id !in c.errors || c.errors[id] == "")
  {
    !ShowsError(c, id) && !ShowsSpinner(c, id)
  }

  /** What each event leaves on screen for its chart: a load hides the
      spinner and shows the image unless an error is up, an error hides the
      spinner and shows the error panel, a
      retry brings back the spinner and removes the panel. Every chart
      starts with a spinner and no error. */
  lemma EventsOnScreen(c: Charts, id: string)
    ensures ShowsSpinner(NoCharts, id) && !ShowsError(NoCharts, id)
    ensures !ShowsSpinner(OnLoad(c, id), id)
    ensures ShowsError(OnLoad(c, id), id) == ShowsError(c, id)
    ensures ShowsImage(OnLoad(c, id), id) <==> !ShowsError(c, id)
    ensures !ShowsSpinner(OnError(c, id), id) && ShowsError(OnError(c, id), id)
    ensures ShowsSpinner(OnRetry(c, id), id) && !ShowsError(OnRetry(c, id), id)
  {
  }

  /** What one chart shows depends only on the events for that chart. */
  lemma ScreenIsPerChart(c: Charts, d: Charts, k: string)
    requires SameAt(c, d, k)
    ensures ShowsSpinner(c, k) == ShowsSpinner(d, k)
    ensures ShowsError(c, k) == ShowsError(d, k)
  {
  }

  /** A retry after an error restores the chart's entries to loading with
      no error, whatever they were before the error. */
  lemma RetryAfterError(c: Charts, id: string)
    ensures var r := OnRetry(OnError(c, id), id);
      && r.loading == c.loading[id := true]
      && r.errors == c.errors - {id}
  {
  }

  // ---------------------------------------------------------------------
  // Image URL
  // ---------------------------------------------------------------------

  const DefaultApiBase := "http://localhost:8000"

  /** `process.env.NEXT_PUBLIC_API_URL || "http://localhost:8000"`: the
      variable when set to a non-empty value. */
  function ApiBase(env: Option<string>): (b: string)
    ensures b != ""
    ensures env.Some? && env.value != "" ==> b == env.value
  {
    if env.Some? && env.value != "" then env.value else DefaultApiBase
  }

  /** The image source: base and endpoint, with `?t=<timestamp>` only once
      the timestamp is set (non-zero). */
  function ImageUrl(base: string, endpoint: string, timestamp: int): (u: string)
    ensures StartsWith(u, base + endpoint)
    ensures timestamp == 0 <==> u == base + endpoint
  {
    if timestamp != 0 then base + endpoint + "?t=" + IntToString(timestamp) else base + endpoint
  }

  /** The timestamp can be read back from the URL: when base and endpoint
      have no `?`, splitting at `?` gives them and `t=<timestamp>`. */
  lemma ImageUrlRoundTrip(base: string, endpoint: string, timestamp: nat)
    requires '?' !in base + endpoint
    requires timestamp != 0
    ensures var parts := Split(ImageUrl(base, endpoint, timestamp), '?');
      && parts == [base + endpoint, "t=" + IntToString(timestamp)]
      && DigitsValue(parts[1][2..]) == timestamp
  {
    var d := IntToString(timestamp);
    var q := "t=" + d;
    assert '?' !in q by {
      forall i | 0 <= i < |q| ensures q[i] != '?' {
        if i >= 2 { assert IsDigit(d[i - 2]); }
      }
    }
    assert ImageUrl(base, endpoint, timestamp) == (base + endpoint) + ['?'] + q;
    SplitConcat(base + endpoint, q, '?');
    SplitWithoutSeparator(base + endpoint, '?');
    SplitWithoutSeparator(q, '?');
    assert q[2..] == d;
  }

  // ---------------------------------------------------------------------
  // Catalogue
  // ---------------------------------------------------------------------

  datatype Chart = Chart(id: string, title: string, endpoint: string)

  /** The path every chart route shares. */
  const ChartPrefix := "/visualizations/"

  /** The charts, in page order; each endpoint is written out as the prefix
      followed by the chart's route name. */
  const Catalogue: seq<Chart> := [
    Chart("price-distribution", "Price Distribution", ChartPrefix + "price-distribution"),
    Chart("brand-analysis", "Brand Price Analysis", ChartPrefix + "brand-analysis"),
    Chart("type-distribution", "Laptop Type Distribution", ChartPrefix + "type-distribution"),
    Chart("price-segments", "Market Price Segments", ChartPrefix + "price-segments"),
    Chart("ram-vs-price", "RAM vs Price", ChartPrefix + "ram-vs-price"),
    Chart("screen-size-analysis", "Screen Size Analysis", ChartPrefix + "screen-size-analysis"),
    Chart("os-comparison", "OS Price Comparison", ChartPrefix + "os-comparison"),
    Chart("model-performance", "Model Performance Metrics", ChartPrefix + "model-performance"),
    Chart("actual-vs-predicted", "Actual vs Predicted Prices", ChartPrefix + "actual-vs-predicted")
  ]

  /** The GET routes of the backend that serve charts. */
  const ChartRoutes: set<string> := {
    ChartPrefix + "price-distribution", ChartPrefix + "brand-analysis",
    ChartPrefix + "type-distribution", ChartPrefix + "ram-vs-price",
    ChartPrefix + "screen-size-analysis", ChartPrefix + "os-comparison",
    ChartPrefix + "model-performance", ChartPrefix + "price-segments",
    ChartPrefix + "actual-vs-predicted"
  }

  /** The ids are pairwise distinct, so the per-chart maps never mix two
      charts. */
  lemma CatalogueIdsDistinct()
    ensures forall i, j :: 0 <= i < j < |Catalogue| ==> Catalogue[i].id != Catalogue[j].id
  {
  }

  /** Each chart's image is served at the route named after its id. */
  lemma CatalogueEndpointsFromIds()
    ensures forall i :: 0 <= i < |Catalogue| ==> Catalogue[i].endpoint == ChartPrefix + Catalogue[i].id
  {
  }

  /** The charts are exactly the ones the backend serves: every endpoint is
      a chart route and every chart route has its chart. */
  lemma CatalogueServed()
    ensures forall i :: 0 <= i < |Catalogue| ==> Catalogue[i].endpoint in ChartRoutes
    ensures forall r :: r in ChartRoutes ==> exists i :: 0 <= i < |Catalogue| && Catalogue[i].endpoint == r
  {
    forall r | r in ChartRoutes
      ensures exists i :: 0 <= i < |Catalogue| && Catalogue[i].endpoint == r
    {
      if r == ChartPrefix + "price-distribution" {
        assert Catalogue[0].endpoint == r;
      } else if r == ChartPrefix + "brand-analysis" {
        assert Catalogue[1].endpoint == r;
      } else if r == ChartPrefix + "type-distribution" {
        assert Catalogue[2].endpoint == r;
      } else if r == ChartPrefix + "price-segments" {
        assert Catalogue[3].endpoint == r;
      } else if r == ChartPrefix + "ram-vs-price" {
        assert Catalogue[4].endpoint == r;
      } else if r == ChartPrefix + "screen-size-analysis" {
        assert Catalogue[5].endpoint == r;
      } else if r == ChartPrefix + "os-comparison" {
        assert Catalogue[6].endpoint == r;
      } else if r == ChartPrefix + "model-performance" {
        assert Catalogue[7].endpoint == r;
      } else if r == ChartPrefix + "actual-vs-predicted" {
        assert Catalogue[8].endpoint == r;
      }
    }
  }
}
