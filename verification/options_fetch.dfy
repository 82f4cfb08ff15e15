/** The comparison page's loading of the option lists: one request, retried
    after failures with growing delays, ending in the lists (and the
    default forms) or in an error message. Time is abstracted away: an
    attempt's outcome is an input, and a retry is recorded by the delay it
    is scheduled with. */
module OptionsFetch {
  import opened Wrappers
  import opened Text
  import opened CompareForm

  /** How one attempt ended: a response with its status and, when the
      status is ok, the decoded lists; the 10-second timeout aborting the
      request; or any other failure (network, unreadable body) with its
      message. */
  datatype Attempt =
    | Delivered(status: int, data: Options)
    | Aborted
    | Errored(message: string)

  /** What the page shows. */
  datatype Ui = Ui(
    options: Option<Options>, loadingOptions: bool, error: Option<string>,
    laptopA: LaptopForm, laptopB: LaptopForm)

  /** The loader: whether the page is still mounted, whether an attempt is
      under way (in flight or scheduled), the retries made, the attempts
      started and the delays the retries were scheduled with. */
  datatype Loader = Loader(
    mounted: bool, running: bool, retryCount: nat, attempts: nat,
    delays: seq<nat>, ui: Ui)

  const MaxRetries := 3
  const RetryStep := 2000
  const MsgTimeout := "Koneksi timeout. Pastikan backend berjalan di http://localhost:8000"
  const LoadFailedPrefix := "Gagal memuat data: "
  const ServerErrorPrefix := "Server error: "

  const InitialUi := Ui(None, true, None, EmptyLaptop, EmptyLaptop)

  /** Mounting starts the first attempt. */
  const Start := Loader(true, true, 0, 1, [], InitialUi)

  predicate IsOk(status: int) {
    200 <= status <= 299
  }

  /** The exception an attempt raises: whether it is an `AbortError`, and
      its message. */
  datatype Thrown = Thrown(abort: bool, message: string)

  function ThrownBy(a: Attempt): (t: Option<Thrown>)
    ensures t.None? <==> a.Delivered? && IsOk(a.status)
    ensures t.Some? && t.value.abort <==> a.Aborted?
  {
    match a
    case Delivered(status, _) =>
      if IsOk(status) then None
      else Some(Thrown(false, ServerErrorPrefix + IntToString(status)))
    case Aborted => Some(Thrown(true, ""))
    case Errored(m) => Some(Thrown(false, m))
  }

  /** The loader's bookkeeping holds: every attempt but the first is a
      retry, at most three retries, the k-th scheduled after 2000 * k ms,
      and nothing is shown while an attempt is under way. */
  ghost predicate Inv(st: Loader) {
    && st.retryCount <= MaxRetries
    && st.attempts == st.retryCount + 1
    && |st.delays| == st.retryCount
    && (forall k :: 0 <= k < |st.delays| ==> st.delays[k] == RetryStep * (k + 1))
    && (st.running ==> st.ui == InitialUi)
  }

  /** The outcome of the attempt under way. */
  function Step(st: Loader, a: Attempt, showReal: real -> string): (r: Loader)
    ensures !st.running ==> r == st
    ensures !st.mounted ==> r.ui == st.ui
    ensures Inv(st) ==> Inv(r)
  {
    if !st.running then st
    else
      match ThrownBy(a)
      case None =>
        if !st.mounted then st.(running := false)
        else
          var shown := st.ui.(options := Some(a.data), loadingOptions := false);
          var seeded := match Seed(a.data, showReal)
            case Some((fa, fb)) => shown.(laptopA := fa, laptopB := fb)
            case None => shown;
          st.(running := false, ui := seeded)
      case Some(t) =>
        if !st.mounted then st.(running := false)
        else if st.retryCount < MaxRetries && !t.abort then
          var k := st.retryCount + 1;
          st.(retryCount := k, attempts := st.attempts + 1, delays := st.delays + [RetryStep * k])
        else
          var message := if t.abort then MsgTimeout else LoadFailedPrefix + t.message;
          st.(running := false, ui := st.ui.(error := Some(message), loadingOptions := false))
  }

  datatype Event = Outcome(attempt: Attempt) | Unmount

  function Apply(st: Loader, e: Event, showReal: real -> string): (r: Loader)
    ensures Inv(st) ==> Inv(r)
    ensures !st.mounted ==> r.ui == st.ui && !r.mounted
  {
    match e
    case Outcome(a) => Step(st, a, showReal)
    case Unmount => st.(mounted := false)
  }

  /** The events, in order. A finished loader stays finished and nothing it
      shows or records changes; after unmount the page stays unmounted and
      its display unchanged; attempts are never taken back. */
  function Run(st: Loader, events: seq<Event>, showReal: real -> string): (r: Loader)
    ensures !st.running ==> !r.running && r.ui == st.ui && r.attempts == st.attempts && r.delays == st.delays
    ensures !st.mounted ==> !r.mounted && r.ui == st.ui
    ensures r.attempts >= st.attempts
    decreases |events|
  {
    if |events| == 0 then st
    else Run(Apply(st, events[0], showReal), events[1..], showReal)
  }

  /** Whatever happens, at most four attempts are made, the retry delays
      are 2000, 4000 and 6000 ms in that order, and once the page is
      unmounted nothing it shows changes. */
  lemma {:induction false} RunKeepsInv(st: Loader, events: seq<Event>, showReal: real -> string)
    requires Inv(st)
    ensures Inv(Run(st, events, showReal))
    ensures Run(st, events, showReal).attempts <= MaxRetries + 1
    ensures !st.mounted ==> Run(st, events, showReal).ui == st.ui
    decreases |events|
  {
    if |events| > 0 {
      RunKeepsInv(Apply(st, events[0], showReal), events[1..], showReal);
    }
  }

  lemma StartHoldsInv()
    ensures Inv(Start)
  {
  }

  /** Four failures in a row: three retries after 2 s, 4 s and 6 s, then the
      last failure's message. */
  lemma AlwaysFailing(m1: string, m2: string, m3: string, m4: string, showReal: real -> string)
    ensures var st := Run(Start, [Outcome(Errored(m1)), Outcome(Errored(m2)), Outcome(Errored(m3)),
                                  Outcome(Errored(m4))], showReal);
      && !st.running && st.attempts == 4 && st.delays == [2000, 4000, 6000]
      && st.ui.error == Some(LoadFailedPrefix + m4) && !st.ui.loadingOptions
      && st.ui.options.None?
  {
    var evs := [Outcome(Errored(m1)), Outcome(Errored(m2)), Outcome(Errored(m3)), Outcome(Errored(m4))];
    var s1 := Step(Start, Errored(m1), showReal);
    var s2 := Step(s1, Errored(m2), showReal);
    var s3 := Step(s2, Errored(m3), showReal);
    var s4 := Step(s3, Errored(m4), showReal);
    assert s1.delays == [2000] && s1.running;
    assert s2.delays == [2000] + [4000] && s2.running;
    assert s3.delays == [2000, 4000] + [6000] && s3.running && s3.retryCount == 3;
    assert s4.ui.error == Some(LoadFailedPrefix + m4) && !s4.running;
    assert evs[1..][1..] == evs[2..] && evs[2..][1..] == evs[3..] && evs[3..][1..] == [];
    calc {
      Run(Start, evs, showReal);
      Run(s1, evs[1..], showReal);
      Run(s2, evs[2..], showReal);
      Run(s3, evs[3..], showReal);
      Run(s4, [], showReal);
    }
  }

  /** A timeout ends loading at once with the timeout message, however many
      retries are left. */
  lemma TimeoutIsTerminal(st: Loader, showReal: real -> string)
    requires st.running && st.mounted
    ensures var r := Step(st, Aborted, showReal);
      && !r.running && r.retryCount == st.retryCount && r.delays == st.delays
      && r.ui.error == Some(MsgTimeout) && !r.ui.loadingOptions
  {
  }

  /** A non-ok status is a failure like any other: retried while retries
      remain, and reported with its status once they are used up. */
  lemma ServerErrorReported(st: Loader, status: int, data: Options, showReal: real -> string)
    requires st.running && st.mounted && !IsOk(status)
    ensures st.retryCount < MaxRetries ==> Step(st, Delivered(status, data), showReal).running
    ensures st.retryCount >= MaxRetries ==>
      Step(st, Delivered(status, data), showReal).ui.error
        == Some(LoadFailedPrefix + ServerErrorPrefix + IntToString(status))
  {
    var m := ServerErrorPrefix + IntToString(status);
    assert ThrownBy(Delivered(status, data)) == Some(Thrown(false, m));
    FailureRetriedOrReported(st, Delivered(status, data), m, showReal);
    assert LoadFailedPrefix + m == LoadFailedPrefix + ServerErrorPrefix + IntToString(status);
  }

  /** Any failure other than the timeout is retried while retries remain
      and reported with its message once they are used up. */
  lemma FailureRetriedOrReported(st: Loader, a: Attempt, m: string, showReal: real -> string)
    requires st.running && st.mounted
    requires ThrownBy(a) == Some(Thrown(false, m))
    ensures var r := Step(st, a, showReal);
      && (st.retryCount < MaxRetries ==> r.running && r.retryCount == st.retryCount + 1)
      && (st.retryCount >= MaxRetries ==>
            !r.running && r.ui.error == Some(LoadFailedPrefix + m) && !r.ui.loadingOptions)
  {
  }

  /** An ok response, after any number of earlier retries, shows the lists
      with no error and stops loading; the forms are seeded exactly when
      there is a company. */
  lemma SuccessShowsOptions(st: Loader, status: int, data: Options, showReal: real -> string)
    requires Inv(st) && st.running && st.mounted && IsOk(status)
    ensures var r := Step(st, Delivered(status, data), showReal);
      && !r.running && r.ui.options == Some(data) && r.ui.error.None? && !r.ui.loadingOptions
      && (|data.companies| > 0 ==> r.ui.laptopA == SeedA(data, showReal) && r.ui.laptopB == SeedB(data, showReal))
      && (|data.companies| == 0 ==> r.ui.laptopA == EmptyLaptop && r.ui.laptopB == EmptyLaptop)
  {
  }
}
