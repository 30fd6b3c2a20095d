/**
  The model pane's fetch, stop and refresh coroutines. Every coroutine runs on the UI thread
  between suspension points and anything may run while it is suspended, so a run of the pane is
  a sequence of events, each one stretch of one coroutine or one answer of the Host.
  `State` is the pane's flags, its suspended coroutines and what has happened so far; `Step` is
  what an event does; `ModelPane` performs the stretches on fields, as the pane does.
 */
module CatalogFetch {
  import opened Utf8

  type Id = string

  // ----- What the Host answers -----

  datatype FetchState = Running | Done | Idle | OtherState

  datatype Answer = Answer(ok: bool, busy: bool, state: FetchState, modelId: Id, cancelled: bool)

  /** A catalog entry, as far as its fetch button depends on it. */
  datatype Entry = Entry(fetchable: bool, missing: bool)

  type Catalog = map<Id, Entry>

  datatype ListReply = Pending | Failed | Listed(catalog: Catalog)

  /** The answer to a stop: none, or whether it was taken, or the fetch was no longer running. */
  datatype StopReply = NoReply | StopReply(ok: bool, notRunning: bool)

  // ----- Suspended coroutines -----

  /** A listing; `asOf` is how many fetches had ended when it began. */
  datatype Listing = Listing(asOf: nat, reply: ListReply)

  datatype Point = Requesting | Showing | Waiting | Ending

  /**
    A fetch: its number, its entry, where it is suspended, and its local variables. `told` and
    `probed` are all it has been told so far: the replies to its start and its polls, and whether the
    Host can stop a fetch.
   */
  datatype Fetch = Fetch(serial: nat, id: Id, point: Point, callOk: bool, follow: bool, canCancel: bool,
                         stalled: bool, pollOk: bool, last: Option<Answer>, told: seq<Option<Answer>>, probed: bool)

  /** A stop: the number and entry of the fetch it was sent for, and the Host's answer. */
  datatype Stop = Stop(target: nat, id: Id, answer: Option<StopReply>)

  // ----- How a fetch is reported to the user -----

  datatype Outcome = CallFailed | Refused | Stalled | Unanswered | Cancelled | Result | Interrupted | OtherEntry

  /**
    The report of an ended fetch, with what it rests on: all it was told, whether it stalled, and
    whether a stop for it was then on its way or had been accepted.
   */
  datatype Bar = Bar(serial: nat, id: Id, told: seq<Option<Answer>>, stalled: bool, inFlight: bool, accepted: bool,
                     outcome: Outcome)

  function Report(f: Fetch, cancelRequested: bool): Outcome
  {
    if !f.callOk then CallFailed
    else if !f.follow || f.last.None? then Refused
    else if f.stalled then (if f.pollOk then Stalled else Unanswered)
    else if f.last.value.state == Done && f.last.value.modelId == f.id then
      (if cancelRequested && f.last.value.cancelled then Cancelled else Result)
    else if f.last.value.state == Idle then Interrupted
    else OtherEntry
  }

  // ----- The state -----

  /**
    The pane's flags, its catalog, and its buttons as last drawn: whether fetching is offered, and
    the stop button in the running fetch's row, if that row is shown.
   */
  datatype Flags = Flags(listedOnce: bool, listing: bool, fetching: bool, fetchingId: Id, canCancel: bool,
                         cancelRequested: bool, cancelInFlight: bool, refreshAgain: bool,
                         catalog: Catalog, fetchOffered: bool, stopButton: Option<bool>)

  /**
    What has happened: fetches started and ended, stops sent and stops known to be accepted (by
    fetch), listings begun, asked for and succeeded, fetches ended when the last listing began and
    when the shown catalog's listing began, whether the last finished listing succeeded, and the
    fetch results shown.
   */
  datatype History = History(started: nat, ended: nat, stopsSent: set<nat>, accepted: set<nat>, listings: nat,
                             asked: nat, succeeded: nat, listedAt: nat, shownAt: nat, lastOk: bool, bars: seq<Bar>)

  datatype State = State(flags: Flags, listings: seq<Listing>, fetches: seq<Fetch>, stops: seq<Stop>, history: History)

  const INITIAL: State :=
    State(Flags(false, false, false, "", false, false, false, false, map[], true, None), [], [], [],
          History(0, 0, {}, {}, 0, 0, 0, 0, 0, true, []))

  // ----- Events -----

  datatype Event =
    | Shown
    | RefreshClicked
    | ListingAnswered(i: nat, listed: Option<Catalog>)
    | ListingResumed(i: nat)
    | FetchClicked(id: Id)
    | FetchAnswered(i: nat, reply: Option<Answer>, probeOk: bool)
    | FetchShown(i: nat, stalled: bool)
    | FetchPolled(i: nat, reply: Option<Answer>)
    | FetchResumed(i: nat)
    | StopClicked
    | StopAnswered(i: nat, stopReply: StopReply)
    | StopResumed(i: nat)
    | SelectClicked

  function Without<T>(s: seq<T>, i: nat): seq<T>
    requires i < |s|
  {
    s[..i] + s[i + 1..]
  }

  /** Drawing the catalog sets every fetch button and, in a shown row, the running fetch's stop button. */
  function Drawn(f: Flags): Flags
  {
    f.(fetchOffered := !f.fetching && !f.cancelInFlight,
       stopButton := if f.fetching && f.fetchingId in f.catalog then Some(f.canCancel && !f.cancelRequested) else None)
  }

  /** Showing progress sets the stop button where there is one. */
  function Updated(f: Flags): Flags
  {
    f.(stopButton := if f.stopButton.Some? then Some(f.canCancel && !f.cancelRequested) else None)
  }

  function BeginListing(s: State): State
  {
    if s.flags.listing then s
    else s.(flags := s.flags.(listing := true), listings := s.listings + [Listing(s.history.ended, Pending)],
            history := s.history.(listings := s.history.listings + 1, listedAt := s.history.ended))
  }

  function Asked(s: State): State { s.(history := s.history.(asked := s.history.asked + 1)) }

  /** The listing's answer taken in, before another listing is begun. */
  function ListingTaken(s: State, i: nat): State
    requires i < |s.listings|
  {
    var done, flags := s.listings[i], s.flags.(listing := false);
    var ok := done.reply.Listed?;
    s.(listings := Without(s.listings, i),
       flags := if ok then Drawn(flags.(listedOnce := true, catalog := done.reply.catalog)) else flags,
       history := s.history.(lastOk := ok, shownAt := if ok then done.asOf else s.history.shownAt,
                             succeeded := s.history.succeeded + Count(ok)))
  }

  function FinishListing(s: State, i: nat): State
    requires i < |s.listings|
  {
    var t := ListingTaken(s, i);
    if t.flags.refreshAgain then BeginListing(t.(flags := t.flags.(refreshAgain := false))) else t
  }

  function NewFetch(serial: nat, id: Id): Fetch
  {
    Fetch(serial, id, Requesting, false, false, false, false, true, None, [], false)
  }

  function BeginFetch(s: State, id: Id): State
  {
    if s.flags.fetching || s.flags.cancelInFlight then s
    else
      var serial := s.history.started + 1;
      s.(flags := Drawn(s.flags.(fetching := true, fetchingId := id, canCancel := false, cancelRequested := false)),
         fetches := s.fetches + [NewFetch(serial, id)],
         history := s.history.(started := serial))
  }

  /** The loop goes on while the Host runs this very fetch. */
  predicate Goes(f: Fetch)
  {
    f.follow && f.last.Some? && f.last.value.state == Running && f.last.value.modelId == f.id
  }

  function Next(f: Fetch): Fetch { f.(point := if Goes(f) then Showing else Ending) }

  function Started(f: Fetch, reply: Option<Answer>, probeOk: bool): Fetch
  {
    var follow := reply.Some? && (reply.value.ok || (reply.value.busy && reply.value.modelId == f.id));
    Next(f.(callOk := reply.Some?, last := reply, follow := follow, canCancel := follow && probeOk,
            told := f.told + [reply], probed := probeOk))
  }

  function Polled(f: Fetch, reply: Option<Answer>): Fetch
  {
    Next(f.(pollOk := reply.Some?, last := if reply.Some? then reply else f.last, told := f.told + [reply]))
  }

  function ShowProgress(s: State, i: nat, stalled: bool): State
    requires i < |s.fetches|
  {
    var f := s.fetches[i];
    s.(flags := Updated(s.flags.(canCancel := f.canCancel)),
       fetches := s.fetches[i := if stalled then f.(stalled := true, point := Ending) else f.(point := Waiting)])
  }

  function BarOf(s: State, f: Fetch): Bar
  {
    Bar(f.serial, f.id, f.told, f.stalled, s.flags.cancelInFlight, f.serial in s.history.accepted,
        Report(f, s.flags.cancelRequested))
  }

  /** The fetch reported and forgotten, before the catalog is listed again. */
  function FetchReported(s: State, i: nat): State
    requires i < |s.fetches|
  {
    var f := s.fetches[i];
    s.(flags := Drawn(s.flags.(fetching := false, fetchingId := "", canCancel := false, cancelRequested := false)),
       fetches := Without(s.fetches, i),
       history := s.history.(ended := s.history.ended + 1, bars := s.history.bars + [BarOf(s, f)]))
  }

  function FinishFetch(s: State, i: nat): State
    requires i < |s.fetches|
  {
    var t := FetchReported(s, i);
    if t.flags.listing then t.(flags := t.flags.(refreshAgain := true)) else BeginListing(t)
  }

  function BeginStop(s: State): State
  {
    if !s.flags.fetching || !s.flags.canCancel || s.flags.cancelRequested then s
    else s.(flags := Updated(s.flags.(cancelRequested := true, cancelInFlight := true)),
            stops := s.stops + [Stop(s.history.started, s.flags.fetchingId, None)],
            history := s.history.(stopsSent := s.history.stopsSent + {s.history.started}))
  }

  /** The Host took the stop, or had nothing left to stop. */
  predicate Accepted(stop: Stop)
  {
    stop.answer.Some? && stop.answer.value.StopReply? && (stop.answer.value.ok || stop.answer.value.notRunning)
  }

  function FinishStop(s: State, i: nat): State
    requires i < |s.stops|
  {
    var stop, flags := s.stops[i], s.flags.(cancelInFlight := false);
    var accepted := Accepted(stop);
    var answered := s.(stops := Without(s.stops, i), flags := if flags.fetching then flags else Drawn(flags),
                       history := s.history.(accepted := s.history.accepted + if accepted then {stop.target} else {}));
    if accepted || !flags.fetching || flags.fetchingId != stop.id then answered
    else answered.(flags := Updated(answered.flags.(cancelRequested := false)))
  }

  /** Whether a coroutine is there to take part in the event. */
  predicate Enabled(s: State, e: Event)
  {
    match e
    case ListingAnswered(i, _) => i < |s.listings| && s.listings[i].reply.Pending?
    case ListingResumed(i) => i < |s.listings| && !s.listings[i].reply.Pending?
    case FetchAnswered(i, _, _) => i < |s.fetches| && s.fetches[i].point == Requesting
    case FetchShown(i, _) => i < |s.fetches| && s.fetches[i].point == Showing
    case FetchPolled(i, _) => i < |s.fetches| && s.fetches[i].point == Waiting
    case FetchResumed(i) => i < |s.fetches| && s.fetches[i].point == Ending
    case StopAnswered(i, _) => i < |s.stops| && s.stops[i].answer.None?
    case StopResumed(i) => i < |s.stops| && s.stops[i].answer.Some?
    case _ => true
  }

  function Step(s: State, e: Event): State
    requires Enabled(s, e)
  {
    match e
    case Shown => if !s.flags.listedOnce && !s.flags.listing then BeginListing(Asked(s)) else s
    case RefreshClicked => BeginListing(Asked(s))
    case ListingAnswered(i, listed) =>
      s.(listings := s.listings[i := s.listings[i].(reply := if listed.Some? then Listed(listed.value) else Failed)])
    case ListingResumed(i) => FinishListing(s, i)
    case FetchClicked(id) => BeginFetch(s, id)
    case FetchAnswered(i, reply, probeOk) => s.(fetches := s.fetches[i := Started(s.fetches[i], reply, probeOk)])
    case FetchShown(i, stalled) => ShowProgress(s, i, stalled)
    case FetchPolled(i, reply) => s.(fetches := s.fetches[i := Polled(s.fetches[i], reply)])
    case FetchResumed(i) => FinishFetch(s, i)
    case StopClicked => BeginStop(s)
    case StopAnswered(i, reply) => s.(stops := s.stops[i := s.stops[i].(answer := Some(reply))])
    case StopResumed(i) => FinishStop(s, i)
    case SelectClicked => s.(flags := Drawn(s.flags))
  }

  // ----- Runs -----

  predicate IsRun(s: State, events: seq<Event>)
    decreases |events|
  {
    events == [] || (Enabled(s, events[0]) && IsRun(Step(s, events[0]), events[1..]))
  }

  function After(s: State, events: seq<Event>): State
    requires IsRun(s, events)
    decreases |events|
  {
    if events == [] then s else After(Step(s, events[0]), events[1..])
  }

  ghost predicate Reachable(s: State)
  {
    exists events :: IsRun(INITIAL, events) && After(INITIAL, events) == s
  }

  // ----- What every run keeps -----

  function Count(b: bool): nat { if b then 1 else 0 }

  /** A flag is up exactly while its one coroutine is suspended. */
  predicate OneOfEach(s: State)
  {
    |s.listings| == Count(s.flags.listing) && |s.fetches| == Count(s.flags.fetching) &&
    |s.stops| == Count(s.flags.cancelInFlight)
  }

  predicate FetchInv(s: State)
  {
    var f, h := s.flags, s.history;
    (f.fetching ==> |s.fetches| == 1 && s.fetches[0].serial == h.started && s.fetches[0].id == f.fetchingId) &&
    (f.canCancel ==> f.fetching && |s.fetches| == 1 && s.fetches[0].canCancel && s.fetches[0].point != Requesting) &&
    h.ended + Count(f.fetching) == h.started
  }

  /** The latest answer among the replies. */
  function Latest(told: seq<Option<Answer>>): Option<Answer>
  {
    if told == [] then None
    else if told[|told| - 1].Some? then told[|told| - 1] else Latest(told[..|told| - 1])
  }

  /** The Host runs a fetch of the entry: this one, or one it was already running. */
  predicate Follows(reply: Option<Answer>, id: Id)
  {
    reply.Some? && (reply.value.ok || (reply.value.busy && reply.value.modelId == id))
  }

  /** The local variables are what the replies make them. */
  predicate LocalsMean(f: Fetch)
  {
    if f.point == Requesting then
      f.told == [] && !f.stalled && f.pollOk
    else
      f.told != [] && f.callOk == f.told[0].Some? && f.follow == Follows(f.told[0], f.id) &&
      f.canCancel == (f.follow && f.probed) && f.last == Latest(f.told) &&
      f.pollOk == (|f.told| == 1 || f.told[|f.told| - 1].Some?) && (f.callOk ==> f.last.Some?) &&
      (f.stalled ==> f.point == Ending) && (f.stalled || f.point != Ending <==> Goes(f))
  }

  predicate LocalsInv(s: State) { forall i :: 0 <= i < |s.fetches| ==> LocalsMean(s.fetches[i]) }

  predicate StopInv(s: State)
  {
    var f, h := s.flags, s.history;
    (f.cancelInFlight ==> |s.stops| == 1 && s.stops[0].target == h.started > 0) &&
    (f.cancelInFlight && f.fetching ==> |s.stops| == 1 && s.stops[0].id == f.fetchingId) &&
    (f.cancelRequested <==> f.fetching && (f.cancelInFlight || h.started in h.accepted)) &&
    (f.cancelInFlight ==> h.started in h.stopsSent && h.started !in h.accepted) &&
    h.accepted <= h.stopsSent && forall n :: n in h.stopsSent ==> 1 <= n <= h.started
  }

  predicate RefreshInv(s: State)
  {
    var f, h := s.flags, s.history;
    h.shownAt <= h.listedAt <= h.ended &&
    (f.refreshAgain <==> h.listedAt < h.ended) && (f.refreshAgain ==> f.listing) &&
    (f.listing ==> |s.listings| == 1 && s.listings[0].asOf == h.listedAt) &&
    (!f.listing && h.lastOk ==> h.shownAt == h.listedAt) && (f.listedOnce <==> h.succeeded > 0) &&
    h.listings + Count(f.refreshAgain) <= h.asked + h.ended
  }

  /**
    The outcome is the one that what was told calls for: the first reply says whether the Host took
    the fetch up, the latest answer how it ended, and a cancelled end is this window's own stop when
    one was on its way or had been accepted.
   */
  ghost predicate Truth(b: Bar)
  {
    && b.told != []
    && (b.outcome == CallFailed <==> b.told[0].None?)
    && (b.outcome == Refused <==> b.told[0].Some? && !Follows(b.told[0], b.id))
    && (Follows(b.told[0], b.id) ==> Latest(b.told).Some? && Ended(b, Latest(b.told).value))
  }

  ghost predicate Ended(b: Bar, a: Answer)
    requires b.told != []
  {
    var heard := |b.told| == 1 || b.told[|b.told| - 1].Some?;
    var done := !b.stalled && a.state == Done && a.modelId == b.id;
    var stopped := a.cancelled && (b.inFlight || b.accepted);
    && (b.stalled <==> a.state == Running && a.modelId == b.id)
    && (b.outcome == Stalled <==> b.stalled && heard)
    && (b.outcome == Unanswered <==> b.stalled && !heard)
    && (b.outcome == Cancelled <==> done && stopped)
    && (b.outcome == Result <==> done && !stopped)
    && (b.outcome == Interrupted <==> !b.stalled && a.state == Idle)
    && (b.outcome == OtherEntry <==> !b.stalled && !done && a.state != Idle)
  }

  ghost predicate BarOk(h: History, k: nat)
    requires k < |h.bars|
  {
    h.bars[k].serial == k + 1 && Truth(h.bars[k]) &&
    (h.bars[k].inFlight || h.bars[k].accepted ==> k + 1 in h.stopsSent) &&
    (h.bars[k].accepted ==> k + 1 in h.accepted)
  }

  ghost predicate BarsInv(s: State)
  {
    var h := s.history;
    |h.bars| == h.ended && forall k :: 0 <= k < |h.bars| ==> BarOk(h, k)
  }

  predicate ButtonsInv(s: State)
  {
    s.flags.fetchOffered == (!s.flags.fetching && !s.flags.cancelInFlight) &&
    s.flags.stopButton == if s.flags.fetching && s.flags.fetchingId in s.flags.catalog
                          then Some(s.flags.canCancel && !s.flags.cancelRequested) else None
  }

  ghost predicate Inv(s: State)
  {
    OneOfEach(s) && FetchInv(s) && LocalsInv(s) && StopInv(s) && RefreshInv(s) && BarsInv(s) && ButtonsInv(s)
  }

  lemma {:induction false} BeginListingKeeps(s: State)
    requires Inv(s)
    ensures Inv(BeginListing(Asked(s)))
  {
    hide BarsInv, LocalsInv;
    BarsDepend(s, BeginListing(Asked(s)));
    LocalsDepend(s, BeginListing(Asked(s)));
  }

  /** What a listing's answer does to the flags and the history that `RefreshInv` speaks of. */
  lemma {:induction false} TakingRefreshes(s: State, i: nat)
    requires OneOfEach(s) && i < |s.listings|
    ensures var t, ok := ListingTaken(s, i), s.listings[i].reply.Listed?;
            t.listings == [] && !t.flags.listing && t.flags.refreshAgain == s.flags.refreshAgain &&
            i == 0 && t.flags.listedOnce == (s.flags.listedOnce || ok) &&
            t.history == s.history.(lastOk := ok, succeeded := s.history.succeeded + Count(ok),
                                    shownAt := if ok then s.listings[0].asOf else s.history.shownAt)
  {
  }

  lemma {:induction false} FinishListingRefreshes(s: State, i: nat)
    requires OneOfEach(s) && RefreshInv(s) && Enabled(s, ListingResumed(i))
    ensures RefreshInv(FinishListing(s, i))
  {
    hide ListingTaken;
    TakingRefreshes(s, i);
  }

  lemma {:induction false} FinishListingCounts(s: State, i: nat)
    requires OneOfEach(s) && i < |s.listings|
    ensures OneOfEach(FinishListing(s, i))
  {
    hide FinishListing;
    FinishListingTouches(s, i);
    ListingsLeft(s, i);
  }

  lemma {:induction false} ListingsLeft(s: State, i: nat)
    requires OneOfEach(s) && i < |s.listings|
    ensures |FinishListing(s, i).listings| == Count(FinishListing(s, i).flags.listing)
  {
    hide ListingTaken;
    TakingRefreshes(s, i);
  }

  /** Nothing differs but the listing's own flags, the catalog, the buttons and the listings' history. */
  ghost predicate SameButListing(s: State, t: State)
  {
    t.fetches == s.fetches && t.stops == s.stops && t.flags.fetching == s.flags.fetching &&
    t.flags.fetchingId == s.flags.fetchingId && t.flags.canCancel == s.flags.canCancel &&
    t.flags.cancelRequested == s.flags.cancelRequested && t.flags.cancelInFlight == s.flags.cancelInFlight &&
    t.history.started == s.history.started && t.history.ended == s.history.ended &&
    t.history.stopsSent == s.history.stopsSent && t.history.accepted == s.history.accepted &&
    t.history.bars == s.history.bars
  }

  lemma {:induction false} TakingTouches(s: State, i: nat)
    requires i < |s.listings|
    ensures SameButListing(s, ListingTaken(s, i)) && (ButtonsInv(s) ==> ButtonsInv(ListingTaken(s, i)))
  {
    hide Without;
  }

  lemma {:induction false} BeginningTouches(s: State)
    ensures SameButListing(s, BeginListing(s.(flags := s.flags.(refreshAgain := false))))
    ensures ButtonsInv(s) ==> ButtonsInv(BeginListing(s.(flags := s.flags.(refreshAgain := false))))
  {
  }

  lemma {:induction false} FinishListingTouches(s: State, i: nat)
    requires i < |s.listings|
    ensures SameButListing(s, FinishListing(s, i)) && (ButtonsInv(s) ==> ButtonsInv(FinishListing(s, i)))
  {
    hide ListingTaken, BeginListing, ButtonsInv;
    TakingTouches(s, i);
    BeginningTouches(ListingTaken(s, i));
  }

  lemma {:induction false} FinishListingElse(s: State, i: nat)
    requires FetchInv(s) && StopInv(s) && ButtonsInv(s) && i < |s.listings|
    ensures FetchInv(FinishListing(s, i)) && StopInv(FinishListing(s, i)) && ButtonsInv(FinishListing(s, i))
  {
    hide FinishListing, ButtonsInv;
    FinishListingTouches(s, i);
  }

  lemma {:induction false} FinishListingKeeps(s: State, i: nat)
    requires Inv(s) && Enabled(s, ListingResumed(i))
    ensures Inv(FinishListing(s, i))
  {
    hide OneOfEach, FetchInv, StopInv, RefreshInv, ButtonsInv, BarsInv, LocalsInv;
    FinishListingCounts(s, i);
    FinishListingRefreshes(s, i);
    FinishListingElse(s, i);
    FinishListingTouches(s, i);
    hide FinishListing;
    BarsDepend(s, FinishListing(s, i));
    LocalsDepend(s, FinishListing(s, i));
  }

  lemma {:induction false} BarsDepend(s: State, t: State)
    requires s.history.bars == t.history.bars && s.history.stopsSent <= t.history.stopsSent &&
             s.history.accepted <= t.history.accepted && s.history.ended == t.history.ended
    ensures BarsInv(s) ==> BarsInv(t)
  {
    hide Truth;
    if BarsInv(s) {
      forall k | 0 <= k < |t.history.bars| ensures BarOk(t.history, k) { assert BarOk(s.history, k); }
    }
  }

  lemma {:induction false} LocalsDepend(s: State, t: State)
    requires s.fetches == t.fetches
    ensures LocalsInv(s) ==> LocalsInv(t)
  {
  }

  lemma {:induction false} BeginFetchKeeps(s: State, id: Id)
    requires Inv(s)
    ensures Inv(BeginFetch(s, id))
  {
    hide BarsInv;
    BarsDepend(s, BeginFetch(s, id));
  }

  /** A fetch may move on by itself as long as its local variables stay true to what it was told. */
  lemma {:induction false} FetchMovesKeep(s: State, i: nat, f: Fetch)
    requires Inv(s) && i < |s.fetches| && f.serial == s.fetches[i].serial && f.id == s.fetches[i].id
    requires LocalsMean(f) && f.point != Requesting && (s.flags.canCancel ==> f.canCancel)
    ensures Inv(s.(fetches := s.fetches[i := f]))
  {
    hide BarsInv, LocalsMean;
    BarsDepend(s, s.(fetches := s.fetches[i := f]));
  }

  lemma {:induction false} StartedMeans(f: Fetch, reply: Option<Answer>, probeOk: bool)
    requires LocalsMean(f) && f.point == Requesting
    ensures LocalsMean(Started(f, reply, probeOk)) && Started(f, reply, probeOk).point != Requesting
  {
    assert f.told + [reply] == [reply];
  }

  lemma {:induction false} PolledMeans(f: Fetch, reply: Option<Answer>)
    requires LocalsMean(f) && f.point == Waiting
    ensures LocalsMean(Polled(f, reply)) && Polled(f, reply).point != Requesting
    ensures Polled(f, reply).canCancel == f.canCancel
  {
    assert (f.told + [reply])[..|f.told|] == f.told;
  }

  lemma {:induction false} ShowProgressLocals(s: State, i: nat, stalled: bool)
    requires LocalsInv(s) && Enabled(s, FetchShown(i, stalled))
    ensures LocalsInv(ShowProgress(s, i, stalled))
  {
    hide Latest, Follows, Updated;
  }

  lemma {:induction false} ShowProgressKeeps(s: State, i: nat, stalled: bool)
    requires Inv(s) && Enabled(s, FetchShown(i, stalled))
    ensures Inv(ShowProgress(s, i, stalled))
  {
    hide BarsInv, LocalsInv;
    ShowProgressLocals(s, i, stalled);
    BarsDepend(s, ShowProgress(s, i, stalled));
  }

  /** The report written when a fetch ends is true. */
  lemma {:induction false} BarIsTrue(s: State, f: Fetch)
    requires LocalsMean(f) && f.point == Ending
    requires s.flags.cancelRequested <==> s.flags.cancelInFlight || f.serial in s.history.accepted
    ensures Truth(BarOf(s, f))
  {
    hide Latest;
  }

  lemma {:induction false} BarsGrow(h: History, after: History, b: Bar)
    requires (forall k :: 0 <= k < |h.bars| ==> BarOk(h, k)) && b.serial == |h.bars| + 1 && Truth(b)
    requires (b.inFlight || b.accepted ==> b.serial in h.stopsSent) && (b.accepted ==> b.serial in h.accepted)
    requires after.bars == h.bars + [b] && after.stopsSent == h.stopsSent && after.accepted == h.accepted
    ensures forall k :: 0 <= k < |after.bars| ==> BarOk(after, k)
  {
    hide Truth;
    forall k | 0 <= k < |after.bars| ensures BarOk(after, k) {
      if k < |h.bars| { assert BarOk(h, k); }
    }
  }

  lemma {:induction false} ReportKeepsBars(s: State, i: nat)
    requires Inv(s) && Enabled(s, FetchResumed(i))
    ensures BarsInv(FinishFetch(s, i))
  {
    hide Truth, BarOk, LocalsMean, Report;
    var f, t := s.fetches[i], FinishFetch(s, i);
    assert i == 0 && f.serial == s.history.started == s.history.ended + 1;
    BarIsTrue(s, f);
    BarsGrow(s.history, t.history, BarOf(s, f));
  }

  lemma {:induction false} FinishFetchKeeps(s: State, i: nat)
    requires Inv(s) && Enabled(s, FetchResumed(i))
    ensures Inv(FinishFetch(s, i))
  {
    hide Report, BarsInv, LocalsMean;
    ReportKeepsBars(s, i);
  }

  lemma {:induction false} BeginStopKeeps(s: State)
    requires Inv(s)
    ensures Inv(BeginStop(s))
  {
    hide BarsInv, LocalsInv;
    BarsDepend(s, BeginStop(s));
    LocalsDepend(s, BeginStop(s));
  }

  lemma {:induction false} FinishStopRequests(s: State, i: nat)
    requires OneOfEach(s) && StopInv(s) && FetchInv(s) && Enabled(s, StopResumed(i))
    ensures OneOfEach(FinishStop(s, i)) && StopInv(FinishStop(s, i))
  {
  }

  /** Nothing differs but the stop's own flags, the buttons and the stops' history. */
  ghost predicate SameButStop(s: State, t: State)
  {
    t.fetches == s.fetches && t.listings == s.listings && t.flags.fetching == s.flags.fetching &&
    t.flags.fetchingId == s.flags.fetchingId && t.flags.canCancel == s.flags.canCancel &&
    t.flags.listing == s.flags.listing && t.flags.listedOnce == s.flags.listedOnce &&
    t.flags.refreshAgain == s.flags.refreshAgain && t.history == s.history.(accepted := t.history.accepted)
  }

  lemma {:induction false} FinishStopTouches(s: State, i: nat)
    requires i < |s.stops|
    ensures SameButStop(s, FinishStop(s, i))
  {
    hide Without, Accepted;
  }

  lemma {:induction false} FinishStopButtons(s: State, i: nat)
    requires ButtonsInv(s) && OneOfEach(s) && i < |s.stops|
    ensures ButtonsInv(FinishStop(s, i))
  {
    hide Without, Accepted;
  }

  lemma {:induction false} FinishStopElse(s: State, i: nat)
    requires FetchInv(s) && RefreshInv(s) && i < |s.stops|
    ensures FetchInv(FinishStop(s, i)) && RefreshInv(FinishStop(s, i))
  {
    hide FinishStop;
    FinishStopTouches(s, i);
  }

  lemma {:induction false} FinishStopKeeps(s: State, i: nat)
    requires Inv(s) && Enabled(s, StopResumed(i))
    ensures Inv(FinishStop(s, i))
  {
    hide OneOfEach, FetchInv, StopInv, RefreshInv, ButtonsInv, BarsInv, LocalsInv;
    FinishStopRequests(s, i);
    FinishStopElse(s, i);
    FinishStopButtons(s, i);
    BarsDepend(s, FinishStop(s, i));
    LocalsDepend(s, FinishStop(s, i));
  }

  lemma {:induction false} AnswersKeep(s: State, e: Event)
    requires Inv(s) && Enabled(s, e) && (e.ListingAnswered? || e.StopAnswered? || e.SelectClicked?)
    ensures Inv(Step(s, e))
  {
    hide BarsInv, LocalsInv;
    BarsDepend(s, Step(s, e));
    LocalsDepend(s, Step(s, e));
  }

  /** Every event keeps the invariant. */
  lemma {:induction false} StepKeepsInv(s: State, e: Event)
    requires Inv(s) && Enabled(s, e)
    ensures Inv(Step(s, e))
  {
    hide Inv, FinishListing, FinishFetch, FinishStop, BeginFetch, BeginStop, BeginListing, ShowProgress, LocalsMean;
    match e
    case Shown => BeginListingKeeps(s);
    case RefreshClicked => BeginListingKeeps(s);
    case ListingResumed(i) => FinishListingKeeps(s, i);
    case FetchClicked(id) => BeginFetchKeeps(s, id);
    case FetchAnswered(i, reply, probeOk) =>
      FetchLocals(s, i);
      StartedMeans(s.fetches[i], reply, probeOk);
      FetchMovesKeep(s, i, Started(s.fetches[i], reply, probeOk));
    case FetchShown(i, stalled) => ShowProgressKeeps(s, i, stalled);
    case FetchPolled(i, reply) =>
      FetchLocals(s, i);
      PolledMeans(s.fetches[i], reply);
      FetchMovesKeep(s, i, Polled(s.fetches[i], reply));
    case FetchResumed(i) => FinishFetchKeeps(s, i);
    case StopClicked => BeginStopKeeps(s);
    case StopResumed(i) => FinishStopKeeps(s, i);
    case ListingAnswered(_, _) => AnswersKeep(s, e);
    case StopAnswered(_, _) => AnswersKeep(s, e);
    case SelectClicked => AnswersKeep(s, e);
  }

  lemma {:induction false} FetchLocals(s: State, i: nat)
    requires Inv(s) && i < |s.fetches|
    ensures LocalsMean(s.fetches[i])
    ensures s.flags.canCancel ==> s.fetches[i].canCancel && s.fetches[i].point != Requesting
  {
    hide BarsInv, LocalsMean;
  }

  lemma {:induction false} RunKeepsInv(s: State, events: seq<Event>)
    requires Inv(s) && IsRun(s, events)
    ensures Inv(After(s, events))
    decreases |events|
  {
    hide Inv, Step, Enabled;
    if events != [] {
      StepKeepsInv(s, events[0]);
      RunKeepsInv(Step(s, events[0]), events[1..]);
    }
  }

  lemma {:induction false} ReachableInv(s: State)
    requires Reachable(s)
    ensures Inv(s)
  {
    var events :| IsRun(INITIAL, events) && After(INITIAL, events) == s;
    assert Inv(INITIAL);
    RunKeepsInv(INITIAL, events);
  }

  // ----- What the pane promises -----

  /** One poller, one unanswered stop, one listing. */
  lemma {:induction false} AtMostOne(s: State)
    requires Reachable(s)
    ensures |s.fetches| <= 1 && |s.stops| <= 1 && |s.listings| <= 1
  {
    ReachableInv(s);
  }

  /**
    While a stop is on its way, no fetch later than the one it was sent for has been started, and
    a fetch still running is that very one, under the same entry id.
   */
  lemma {:induction false} StopMeetsItsFetch(s: State, i: nat)
    requires Reachable(s) && i < |s.stops|
    ensures s.stops[i].target == s.history.started
    ensures forall k :: 0 <= k < |s.fetches| ==>
      s.fetches[k].serial == s.stops[i].target && s.fetches[k].id == s.stops[i].id
    ensures s.flags.fetching ==> s.flags.fetchingId == s.stops[i].id
  {
    ReachableInv(s);
  }

  /** However the run goes on, no fetch starts before the stop on its way has been answered. */
  lemma {:induction false} NoFetchUntilAnswered(s: State, events: seq<Event>)
    requires Inv(s) && s.stops != [] && IsRun(s, events)
    requires forall k :: 0 <= k < |events| ==> !events[k].StopResumed?
    ensures After(s, events).history.started == s.history.started && After(s, events).stops != []
    decreases |events|
  {
    if events != [] {
      var t := Step(s, events[0]);
      StepKeepsInv(s, events[0]);
      StopStays(s, events[0]);
      NoFetchUntilAnswered(t, events[1..]);
    }
  }

  lemma {:induction false} StopStays(s: State, e: Event)
    requires Inv(s) && s.stops != [] && Enabled(s, e) && !e.StopResumed?
    ensures Step(s, e).stops != [] && Step(s, e).history.started == s.history.started
  {
  }

  predicate CanStartCatalogFetch(entry: Entry, fetching: bool, cancelInFlight: bool)
  {
    entry.fetchable && entry.missing && !fetching && !cancelInFlight
  }

  /** The fetch button of an entry's row, as last drawn. */
  predicate FetchButton(f: Flags, id: Id)
  {
    id in f.catalog && f.catalog[id].fetchable && f.catalog[id].missing && f.fetchOffered
  }

  /**
    The buttons as drawn are never out of date: a shown row offers its fetch exactly when drawing
    it now would, and then a click starts that fetch; the running fetch's row, where shown, has a
    stop button, and a click on it sends a stop exactly when it is offered.
   */
  lemma {:induction false} ButtonsTellTheTruth(s: State, id: Id)
    requires Reachable(s)
    ensures var f := s.flags;
            id in f.catalog ==>
              (FetchButton(f, id) <==> CanStartCatalogFetch(f.catalog[id], f.fetching, f.cancelInFlight))
    ensures s.flags.fetchOffered <==> s.fetches == [] && s.stops == []
    ensures FetchButton(s.flags, id) <==>
            id in s.flags.catalog && s.flags.catalog[id] == Entry(true, true) && s.fetches == [] && s.stops == []
    ensures FetchButton(s.flags, id) ==>
              var t := Step(s, FetchClicked(id)); t.history.started == s.history.started + 1 && t.flags.fetchingId == id
    ensures !s.flags.fetchOffered ==> Step(s, FetchClicked(id)) == s
    ensures s.flags.stopButton.Some? <==> s.flags.fetching && s.flags.fetchingId in s.flags.catalog
    ensures s.flags.stopButton == Some(true) ==> |Step(s, StopClicked).stops| == |s.stops| + 1
    ensures s.flags.stopButton == Some(false) ==> Step(s, StopClicked) == s
  {
    ReachableInv(s);
  }

  /** A fetch ended since the last listing began exactly when another listing is already due. */
  lemma {:induction false} EndedMeansListAgain(s: State)
    requires Reachable(s)
    ensures s.history.listedAt < s.history.ended <==> s.flags.refreshAgain
    ensures s.flags.refreshAgain ==> s.flags.listing && s.listings != []
  {
    ReachableInv(s);
  }

  predicate AtRest(s: State) { s.listings == [] && s.fetches == [] && s.stops == [] }

  /** With nothing suspended every flag is down, and the last listing began after every fetch ended. */
  lemma {:induction false} RestIsIdle(s: State)
    requires Reachable(s) && AtRest(s)
    ensures !s.flags.listing && !s.flags.fetching && !s.flags.cancelInFlight && !s.flags.refreshAgain
    ensures !s.flags.cancelRequested && !s.flags.canCancel && s.flags.fetchOffered
    ensures s.history.listedAt == s.history.ended == s.history.started
    ensures s.history.lastOk ==> s.history.shownAt == s.history.ended
  {
    ReachableInv(s);
  }

  /** Listing again never runs away: at most one listing per request and per fetch. */
  lemma {:induction false} ListingsBounded(s: State)
    requires Reachable(s)
    ensures s.history.listings <= s.history.asked + s.history.ended
  {
    ReachableInv(s);
  }

  /**
    Every ended fetch is reported once, in order, with the outcome that what the Host told calls for;
    it counts as stopped only if a stop was sent for it, and as accepted only if one was accepted.
   */
  lemma {:induction false} ReportsAreFaithful(s: State)
    requires Reachable(s)
    ensures |s.history.bars| == s.history.ended && s.history.ended + |s.fetches| == s.history.started
    ensures forall k :: 0 <= k < |s.history.bars| ==> s.history.bars[k].serial == k + 1 && Truth(s.history.bars[k])
    ensures forall k :: 0 <= k < |s.history.bars| && s.history.bars[k].outcome == Cancelled ==>
      k + 1 in s.history.stopsSent
    ensures forall k :: 0 <= k < |s.history.bars| && s.history.bars[k].accepted ==> k + 1 in s.history.accepted
  {
    ReachableInv(s);
    hide Latest, Follows;
    forall k | 0 <= k < |s.history.bars|
      ensures s.history.bars[k].serial == k + 1 && Truth(s.history.bars[k])
      ensures s.history.bars[k].outcome == Cancelled ==> k + 1 in s.history.stopsSent
      ensures s.history.bars[k].accepted ==> k + 1 in s.history.accepted
    {
      assert BarOk(s.history, k);
    }
  }

  /**
    A stop's answer decides: taken, or nothing left to stop, keeps the request up; any other answer
    withdraws it, and where the row is shown the stop button is offered again.
   */
  lemma {:induction false} StopAnswerDecides(s: State, i: nat)
    requires Reachable(s) && Enabled(s, StopResumed(i)) && s.flags.fetching
    ensures var taken := s.stops[i].answer.value == StopReply(true, true) ||
                         s.stops[i].answer.value == StopReply(true, false) ||
                         s.stops[i].answer.value == StopReply(false, true);
            var f := Step(s, StopResumed(i)).flags;
            (f.cancelRequested <==> taken) && f.fetching && !f.cancelInFlight &&
            (taken <==> s.history.started in Step(s, StopResumed(i)).history.accepted) &&
            (!taken && f.canCancel && f.fetchingId in f.catalog ==> f.stopButton == Some(true)) &&
            (taken && f.fetchingId in f.catalog ==> f.stopButton == Some(false))
  {
    ReachableInv(s);
    hide LocalsInv, BarsInv;
  }

  /** The stop requested is one on its way or one known to be accepted, for the running fetch. */
  lemma {:induction false} RequestedMeans(s: State)
    requires Reachable(s)
    ensures s.flags.cancelRequested <==> s.flags.fetching && (s.stops != [] || s.history.started in s.history.accepted)
  {
    ReachableInv(s);
  }

  /** However a run goes on, an accepted stop stays requested until its fetch ends. */
  lemma {:induction false} AcceptedStays(s: State, events: seq<Event>)
    requires Inv(s) && s.flags.fetching && s.history.started in s.history.accepted && IsRun(s, events)
    requires forall k :: 0 <= k < |events| ==> !events[k].FetchResumed?
    ensures After(s, events).flags.fetching && After(s, events).flags.cancelRequested
    ensures After(s, events).history.started == s.history.started
    decreases |events|
  {
    if events == [] {
      hide LocalsInv, BarsInv;
    } else {
      hide Inv, Step, Enabled;
      StepKeepsInv(s, events[0]);
      AcceptedStep(s, events[0]);
      AcceptedStays(Step(s, events[0]), events[1..]);
    }
  }

  lemma {:induction false} AcceptedStep(s: State, e: Event)
    requires Inv(s) && s.flags.fetching && s.history.started in s.history.accepted && Enabled(s, e) && !e.FetchResumed?
    ensures var t := Step(s, e);
            t.flags.fetching && t.history.started == s.history.started && t.history.started in t.history.accepted
  {
    AcceptedParts(s);
    hide Inv, FinishListing, FinishStop, Drawn, Updated, Started, Polled, Without;
    match e
    case ListingResumed(i) => FinishListingTouches(s, i);
    case StopResumed(i) => StopTouches(s, i);
    case _ =>
  }

  lemma {:induction false} AcceptedParts(s: State)
    requires Inv(s) && s.flags.fetching && s.history.started in s.history.accepted
    ensures s.flags.cancelRequested
  {
    hide LocalsInv, BarsInv;
  }

  lemma {:induction false} StopTouches(s: State, i: nat)
    requires i < |s.stops|
    ensures var t := FinishStop(s, i);
            t.flags.fetching == s.flags.fetching && t.history.started == s.history.started &&
            s.history.accepted <= t.history.accepted
  {
    hide Without;
  }

  /** Once progress is shown, a stop is offered exactly when the Host took the fetch up and can stop one. */
  lemma {:induction false} ProgressOffersStop(s: State, i: nat, stalled: bool)
    requires Reachable(s) && Enabled(s, FetchShown(i, stalled))
    ensures var f, t := s.fetches[i], Step(s, FetchShown(i, stalled));
            f.told != [] && (t.flags.canCancel <==> Follows(f.told[0], f.id) && f.probed) &&
            t.fetches[i].point == (if stalled then Ending else Waiting) && t.fetches[i].stalled == stalled &&
            t.fetches[i].told == f.told
  {
    ReachableInv(s);
    hide BarsInv, Latest;
  }

  /** A fetch goes on exactly while the latest answer says that the Host runs this very entry. */
  lemma {:induction false} PollsWhileRunning(s: State, i: nat)
    requires Reachable(s) && i < |s.fetches| && s.fetches[i].point != Requesting && !s.fetches[i].stalled
    ensures var f := s.fetches[i];
            f.told != [] &&
            (f.point != Ending <==>
              Follows(f.told[0], f.id) && Latest(f.told).Some? && Latest(f.told).value.state == Running &&
              Latest(f.told).value.modelId == f.id)
  {
    ReachableInv(s);
    hide BarsInv, Latest, Follows;
    assert LocalsMean(s.fetches[i]);
  }

  /** A finished listing shows its catalog if it succeeded, and leaves the shown one otherwise. */
  lemma {:induction false} ListingShows(s: State, i: nat)
    requires Reachable(s) && Enabled(s, ListingResumed(i))
    ensures var c, t := s.listings[i].reply, Step(s, ListingResumed(i));
            t.flags.catalog == (if c.Listed? then c.catalog else s.flags.catalog) &&
            (t.flags.listedOnce <==> s.flags.listedOnce || c.Listed?) &&
            (t.flags.listing <==> s.flags.refreshAgain) && !t.flags.refreshAgain
  {
    ReachableInv(s);
    hide LocalsInv, BarsInv;
  }

  /** Showing the pane lists exactly when no listing has succeeded and none is running. */
  lemma {:induction false} ShownLists(s: State)
    requires Reachable(s)
    ensures |Step(s, Shown).listings| == |s.listings| + 1 <==> s.history.succeeded == 0 && s.listings == []
    ensures Step(s, Shown) == s || |Step(s, Shown).listings| == |s.listings| + 1
  {
    ReachableInv(s);
    hide LocalsInv, BarsInv;
  }

  // ----- No run is stuck -----

  lemma {:induction false} AfterConcat(s: State, a: seq<Event>, b: seq<Event>)
    requires IsRun(s, a) && IsRun(After(s, a), b)
    ensures IsRun(s, a + b) && After(s, a + b) == After(After(s, a), b)
    decreases |a|
  {
    hide Step, Enabled;
    if a == [] {
      assert a + b == b;
    } else {
      assert (a + b)[0] == a[0] && (a + b)[1..] == a[1..] + b;
      AfterConcat(Step(s, a[0]), a[1..], b);
    }
  }

  /** How much the suspended coroutines have left when the Host answers each and starts nothing new. */
  function FetchLeft(f: Fetch): nat { if f.point == Ending then 1 else 2 }

  function Left(s: State): nat
  {
    (if s.fetches == [] then 0 else 4 * FetchLeft(s.fetches[0])) +
    (if s.stops == [] then 0 else if s.stops[0].answer.None? then 2 else 1) +
    (if s.listings == [] then 0 else if s.listings[0].reply.Pending? then 2 else 1) +
    (if s.flags.refreshAgain then 2 else 0)
  }

  /** An event that brings the pane nearer to rest. */
  function Settle(s: State): Event
    requires !AtRest(s)
  {
    if s.fetches != [] then
      match s.fetches[0].point
      case Requesting => FetchAnswered(0, None, false)
      case Showing => FetchShown(0, true)
      case Waiting => FetchPolled(0, Some(Answer(true, false, Idle, "", false)))
      case Ending => FetchResumed(0)
    else if s.stops != [] then (if s.stops[0].answer.None? then StopAnswered(0, NoReply) else StopResumed(0))
    else if s.listings[0].reply.Pending? then ListingAnswered(0, None)
    else ListingResumed(0)
  }

  lemma {:induction false} SettleMove(s: State)
    requires Inv(s) && s.fetches != [] && s.fetches[0].point != Ending
    ensures Enabled(s, Settle(s)) && Left(Step(s, Settle(s))) < Left(s)
  {
    hide LocalsInv, BarsInv, ButtonsInv, StopInv, RefreshInv, FetchInv;
  }

  lemma {:induction false} SettleFetch(s: State)
    requires Inv(s) && s.fetches != [] && s.fetches[0].point == Ending
    ensures Enabled(s, Settle(s)) && Left(Step(s, Settle(s))) < Left(s)
  {
    hide LocalsInv, BarsInv, ButtonsInv, StopInv, Report, Inv;
    assert OneOfEach(s) && RefreshInv(s) by { InvParts(s); }
    var t := FinishFetch(s, 0);
    assert t.stops == s.stops && t.fetches == [];
    assert s.flags.listing ==> t.listings == s.listings && t.flags.refreshAgain;
    assert !s.flags.listing ==> t.listings == [Listing(s.history.ended + 1, Pending)] && !t.flags.refreshAgain;
  }

  lemma {:induction false} InvParts(s: State)
    requires Inv(s)
    ensures OneOfEach(s) && RefreshInv(s)
  {
  }

  lemma {:induction false} SettleStop(s: State)
    requires Inv(s) && s.fetches == [] && s.stops != []
    ensures Enabled(s, Settle(s)) && Left(Step(s, Settle(s))) < Left(s)
  {
    hide LocalsInv, BarsInv, ButtonsInv, RefreshInv;
  }

  lemma {:induction false} SettleListing(s: State)
    requires Inv(s) && s.fetches == [] && s.stops == [] && s.listings != []
    ensures Enabled(s, Settle(s)) && Left(Step(s, Settle(s))) < Left(s)
  {
    hide LocalsInv, BarsInv, ButtonsInv, StopInv;
  }

  lemma {:induction false} SettleHelps(s: State)
    requires Inv(s) && !AtRest(s)
    ensures Enabled(s, Settle(s)) && Left(Step(s, Settle(s))) < Left(s)
  {
    hide Inv, Step, Settle, Left;
    if s.fetches == [] && s.stops == [] {
      SettleListing(s);
    } else if s.fetches == [] {
      SettleStop(s);
    } else if s.fetches[0].point == Ending {
      SettleFetch(s);
    } else {
      SettleMove(s);
    }
  }

  lemma {:induction false} CanComeToRest(s: State) returns (events: seq<Event>)
    requires Inv(s)
    ensures IsRun(s, events) && AtRest(After(s, events)) && |events| <= Left(s)
    decreases Left(s)
  {
    hide Inv, Step, Settle, Left, AtRest;
    events := [];
    if !AtRest(s) {
      SettleHelps(s);
      StepKeepsInv(s, Settle(s));
      var rest := CanComeToRest(Step(s, Settle(s)));
      events := [Settle(s)] + rest;
      assert events[1..] == rest;
    }
  }

  /** From every reachable state the pane can come to rest, so no button stays disabled for good. */
  lemma {:induction false} EveryRunCanRest(s: State) returns (events: seq<Event>)
    requires Reachable(s)
    ensures IsRun(s, events) && AtRest(After(s, events)) && Reachable(After(s, events))
    ensures After(s, events).flags.fetchOffered && |events| <= Left(s)
  {
    hide Step, Enabled, Inv, Left, AtRest;
    ReachableInv(s);
    events := CanComeToRest(s);
    var before :| IsRun(INITIAL, before) && After(INITIAL, before) == s;
    AfterConcat(INITIAL, before, events);
    assert Reachable(After(s, events));
    RestIsIdle(After(s, events));
  }

  // ----- The pane -----

  /** Every event leads from one reachable state to another. */
  lemma {:induction false} StepReachable(s: State, e: Event)
    requires Reachable(s) && Enabled(s, e)
    ensures Reachable(Step(s, e))
  {
    hide Step, Enabled;
    var before :| IsRun(INITIAL, before) && After(INITIAL, before) == s;
    assert [e][1..] == [];
    assert IsRun(Step(s, e), []) && IsRun(s, [e]) && After(s, [e]) == Step(s, e);
    AfterConcat(INITIAL, before, [e]);
  }

  lemma {:induction false} StepOfStretch(s: State, e: Event)
    requires Enabled(s, e)
    ensures e.Shown? ==> Step(s, e) == if !s.flags.listedOnce && !s.flags.listing then BeginListing(Asked(s)) else s
    ensures e.RefreshClicked? ==> Step(s, e) == BeginListing(Asked(s))
    ensures e.ListingResumed? ==> Step(s, e) == FinishListing(s, e.i)
    ensures e.FetchClicked? ==> Step(s, e) == BeginFetch(s, e.id)
    ensures e.FetchShown? ==> Step(s, e) == ShowProgress(s, e.i, e.stalled)
    ensures e.FetchResumed? ==> Step(s, e) == FinishFetch(s, e.i)
    ensures e.StopClicked? ==> Step(s, e) == BeginStop(s)
    ensures e.StopResumed? ==> Step(s, e) == FinishStop(s, e.i)
  {
    hide FinishListing, FinishFetch, FinishStop, BeginFetch, BeginStop, BeginListing, ShowProgress;
  }

  /** The pane object: only reachable states, so every promise above holds of it after every method. */
  class ModelPane {
    var flags: Flags
    var listings: seq<Listing>
    var fetches: seq<Fetch>
    var stops: seq<Stop>
    var history: History

    ghost function View(): State
      reads this
    {
      State(flags, listings, fetches, stops, history)
    }

    constructor ()
      ensures View() == INITIAL && Reachable(View())
    {
      flags := Flags(false, false, false, "", false, false, false, false, map[], true, None);
      listings, fetches, stops := [], [], [];
      history := History(0, 0, {}, {}, 0, 0, 0, 0, 0, true, []);
      new;
      assert IsRun(INITIAL, []) && After(INITIAL, []) == INITIAL;
    }

    // ----- Stretches within events -----

    method Refresh()
      modifies this`flags, this`listings, this`history
      ensures View() == BeginListing(old(View()))
    {
      if flags.listing { return; }
      flags := flags.(listing := true);
      listings := listings + [Listing(history.ended, Pending)];
      history := history.(listings := history.listings + 1, listedAt := history.ended);
    }

    method UpdateFetchProgress()
      modifies this`flags
      ensures flags == Updated(old(flags))
    {
      if flags.stopButton.None? { return; }
      flags := flags.(stopButton := Some(flags.canCancel && !flags.cancelRequested));
    }

    method RenderCatalog()
      modifies this`flags
      ensures flags == Drawn(old(flags))
    {
      flags := flags.(fetchOffered := !flags.fetching && !flags.cancelInFlight);
      flags := flags.(stopButton := None);
      if flags.fetching && flags.fetchingId in flags.catalog {
        flags := flags.(stopButton := Some(false));
        UpdateFetchProgress();
      }
    }

    method TakeListing(i: nat)
      requires i < |listings|
      modifies this`flags, this`listings, this`history
      ensures View() == ListingTaken(old(View()), i)
    {
      hide Without;
      var done := listings[i];
      listings := Without(listings, i);
      flags := flags.(listing := false);
      if done.reply.Listed? {
        flags := flags.(listedOnce := true);
        flags := flags.(catalog := done.reply.catalog);
        history := history.(lastOk := true, shownAt := done.asOf, succeeded := history.succeeded + 1);
        RenderCatalog();
      } else {
        history := history.(lastOk := false);
      }
    }

    method ReportFetch(i: nat)
      requires i < |fetches|
      modifies this`flags, this`fetches, this`history
      ensures View() == FetchReported(old(View()), i)
    {
      hide Report, Without;
      var f := fetches[i];
      fetches := Without(fetches, i);
      var bar := Bar(f.serial, f.id, f.told, f.stalled, flags.cancelInFlight, f.serial in history.accepted,
                     Report(f, flags.cancelRequested));
      history := history.(ended := history.ended + 1, bars := history.bars + [bar]);
      flags := flags.(fetching := false);
      flags := flags.(fetchingId := "");
      flags := flags.(canCancel := false);
      flags := flags.(cancelRequested := false);
      RenderCatalog();
    }

    // ----- Events -----

    method OnRefreshClicked()
      requires Reachable(View())
      modifies this
      ensures View() == Step(old(View()), RefreshClicked) && Reachable(View())
    {
      hide Step, Reachable;
      StepReachable(View(), RefreshClicked);
      StepOfStretch(View(), RefreshClicked);
      history := history.(asked := history.asked + 1);
      Refresh();
    }

    method OnShown()
      requires Reachable(View())
      modifies this
      ensures View() == Step(old(View()), Shown) && Reachable(View())
    {
      hide Step, Reachable;
      StepReachable(View(), Shown);
      StepOfStretch(View(), Shown);
      if !flags.listedOnce && !flags.listing {
        history := history.(asked := history.asked + 1);
        Refresh();
      }
    }

    /** The stretch of `Refresh` after the Host's answer. */
    method ResumeListing(i: nat)
      requires Reachable(View()) && Enabled(View(), ListingResumed(i))
      modifies this
      ensures View() == Step(old(View()), ListingResumed(i)) && Reachable(View())
    {
      hide Step, Reachable, ListingTaken;
      StepReachable(View(), ListingResumed(i));
      StepOfStretch(View(), ListingResumed(i));
      TakeListing(i);
      if flags.refreshAgain {
        flags := flags.(refreshAgain := false);
        Refresh();
      }
    }

    /** `FetchCatalog` up to its first suspension. */
    method FetchCatalog(id: Id)
      requires Reachable(View())
      modifies this
      ensures View() == Step(old(View()), FetchClicked(id)) && Reachable(View())
    {
      hide Step, Reachable;
      StepReachable(View(), FetchClicked(id));
      StepOfStretch(View(), FetchClicked(id));
      if flags.fetching || flags.cancelInFlight { return; }
      flags := flags.(fetching := true);
      flags := flags.(fetchingId := id);
      flags := flags.(canCancel := false);
      flags := flags.(cancelRequested := false);
      var serial := history.started + 1;
      history := history.(started := serial);
      fetches := fetches + [NewFetch(serial, id)];
      RenderCatalog();
    }

    /** One turn of `FetchCatalog`'s loop on the UI thread. */
    method ShowFetchProgress(i: nat, isStalled: bool)
      requires Reachable(View()) && Enabled(View(), FetchShown(i, isStalled))
      modifies this
      ensures View() == Step(old(View()), FetchShown(i, isStalled)) && Reachable(View())
    {
      hide Step, Reachable;
      StepReachable(View(), FetchShown(i, isStalled));
      StepOfStretch(View(), FetchShown(i, isStalled));
      var f := fetches[i];
      flags := flags.(canCancel := f.canCancel);
      UpdateFetchProgress();
      if isStalled {
        fetches := fetches[i := f.(stalled := true, point := Ending)];
      } else {
        fetches := fetches[i := f.(point := Waiting)];
      }
    }

    /** The stretch of `FetchCatalog` after its loop. */
    method EndFetch(i: nat)
      requires Reachable(View()) && Enabled(View(), FetchResumed(i))
      modifies this
      ensures View() == Step(old(View()), FetchResumed(i)) && Reachable(View())
    {
      hide Step, Reachable, FetchReported;
      StepReachable(View(), FetchResumed(i));
      StepOfStretch(View(), FetchResumed(i));
      ReportFetch(i);
      if flags.listing {
        flags := flags.(refreshAgain := true);
      } else {
        Refresh();
      }
    }

    /** `CancelCatalogFetch` up to its suspension. */
    method CancelCatalogFetch()
      requires Reachable(View())
      modifies this
      ensures View() == Step(old(View()), StopClicked) && Reachable(View())
    {
      hide Step, Reachable;
      StepReachable(View(), StopClicked);
      StepOfStretch(View(), StopClicked);
      if !flags.fetching || !flags.canCancel || flags.cancelRequested { return; }
      flags := flags.(cancelRequested := true);
      flags := flags.(cancelInFlight := true);
      stops := stops + [Stop(history.started, flags.fetchingId, None)];
      history := history.(stopsSent := history.stopsSent + {history.started});
      UpdateFetchProgress();
    }

    /** The stretch of `CancelCatalogFetch` after the Host's answer. */
    method ResumeStop(i: nat)
      requires Reachable(View()) && Enabled(View(), StopResumed(i))
      modifies this
      ensures View() == Step(old(View()), StopResumed(i)) && Reachable(View())
    {
      hide Step, Reachable, Without;
      StepReachable(View(), StopResumed(i));
      StepOfStretch(View(), StopResumed(i));
      var stop := stops[i];
      stops := Without(stops, i);
      flags := flags.(cancelInFlight := false);
      if !flags.fetching { RenderCatalog(); }
      var accepted := stop.answer.value.StopReply? && (stop.answer.value.ok || stop.answer.value.notRunning);
      if accepted { history := history.(accepted := history.accepted + {stop.target}); }
      if accepted || !flags.fetching || flags.fetchingId != stop.id { return; }
      flags := flags.(cancelRequested := false);
      UpdateFetchProgress();
    }

    /** What happens off the UI thread: the Host answers a coroutine, which then waits to resume. */
    method HostAnswers(e: Event)
      requires Reachable(View()) && Enabled(View(), e)
      requires e.ListingAnswered? || e.FetchAnswered? || e.FetchPolled? || e.StopAnswered?
      modifies this`listings, this`fetches, this`stops
      ensures View() == Step(old(View()), e) && Reachable(View())
    {
      hide Reachable, Started, Polled;
      StepReachable(View(), e);
      match e {
        case ListingAnswered(i, listed) =>
          listings := listings[i := listings[i].(reply := if listed.Some? then Listed(listed.value) else Failed)];
        case FetchAnswered(i, reply, probeOk) => fetches := fetches[i := Started(fetches[i], reply, probeOk)];
        case FetchPolled(i, reply) => fetches := fetches[i := Polled(fetches[i], reply)];
        case StopAnswered(i, reply) => stops := stops[i := stops[i].(answer := Some(reply))];
      }
    }
  }
}
