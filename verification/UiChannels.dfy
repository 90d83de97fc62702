/**
 The two hand-offs of pageant/desktop_windows.go between worker goroutines and the UI thread:
 signing notices (lines 245-293) and key refreshes (lines 294-303 and 513-533). Each sends on
 a bounded channel and then posts a window message; a post can fail, and then it is lost.
 */
module UiChannels {
  import opened Bytes

  // ----- notices -----

  const NOTICE_SLOTS := 16

  /**
   `queue` is the channel, `checked` the producers that found the desktop open and have yet to
   send, `posting` those between their send and their post, `pending` the posted messages,
   `lost` the failed posts; `accepted` and `delivered` are the notices that went into and came
   out of the channel.
   */
  datatype Notices = Notices(queue: seq<bytes>, checked: nat, posting: nat, pending: nat, lost: nat, closed: bool,
                             accepted: seq<bytes>, delivered: seq<bytes>)

  const NO_NOTICES := Notices([], 0, 0, 0, 0, false, [], [])

  datatype NoticeEvent =
    | Check                   // notify finds the desktop open, or returns
    | Send(notice: bytes)     // one of the producers sends, or takes the default branch
    | Post(ok: bool)          // one of the producers posts
    | Handle                  // the UI thread takes one wmTrayNotice
    | CloseDesktop

  function NoticeStep(s: Notices, e: NoticeEvent): Notices {
    match e
    case Check => if s.closed then s else s.(checked := s.checked + 1)
    case Send(n) =>
      if s.checked == 0 then s
      else if |s.queue| == NOTICE_SLOTS then s.(checked := s.checked - 1)
      else s.(checked := s.checked - 1, queue := s.queue + [n], posting := s.posting + 1, accepted := s.accepted + [n])
    case Post(ok) =>
      if s.posting == 0 then s
      else if ok then s.(posting := s.posting - 1, pending := s.pending + 1)
      else s.(posting := s.posting - 1, lost := s.lost + 1)
    case Handle =>
      if s.pending == 0 then s
      else if s.queue == [] then s.(pending := s.pending - 1)
      else s.(pending := s.pending - 1, queue := s.queue[1..], delivered := s.delivered + [s.queue[0]])
    case CloseDesktop => s.(closed := true)
  }

  function NoticeRun(events: seq<NoticeEvent>): Notices {
    if events == [] then NO_NOTICES else NoticeStep(NoticeRun(events[..|events| - 1]), events[|events| - 1])
  }

  /** A queued notice is waiting for its post, has its message pending, or lost its message. */
  predicate Counted(s: Notices) {
    |s.queue| == s.posting + s.pending + s.lost && |s.queue| <= NOTICE_SLOTS
  }

  lemma StepKeepsCount(s: Notices, e: NoticeEvent)
    requires Counted(s)
    ensures Counted(NoticeStep(s, e))
  {
  }

  lemma StepKeepsOrder(s: Notices, e: NoticeEvent)
    requires s.delivered + s.queue == s.accepted
    ensures var s' := NoticeStep(s, e);
            s'.delivered + s'.queue == s'.accepted
  {
    match e
    case Send(n) => assert s.delivered + (s.queue + [n]) == s.delivered + s.queue + [n];
    case Handle =>
      if s.queue != [] {
        assert s.delivered + [s.queue[0]] + s.queue[1..] == s.delivered + s.queue;
      }
    case _ =>
  }

  /** In every run queued notices are accounted for, and delivery is first in, first out within 16 slots. */
  lemma {:induction false} NoticesAreCounted(events: seq<NoticeEvent>)
    ensures var s := NoticeRun(events);
            Counted(s) && s.delivered + s.queue == s.accepted
  {
    if events != [] {
      var before := NoticeRun(events[..|events| - 1]);
      NoticesAreCounted(events[..|events| - 1]);
      StepKeepsCount(before, events[|events| - 1]);
      StepKeepsOrder(before, events[|events| - 1]);
    }
  }

  /** Once producers and messages are drained, everything is delivered exactly if no post was lost. */
  lemma DrainedUnlessLost(events: seq<NoticeEvent>)
    requires NoticeRun(events).posting == 0 && NoticeRun(events).pending == 0
    ensures NoticeRun(events).delivered == NoticeRun(events).accepted <==> NoticeRun(events).lost == 0
  {
    NoticesAreCounted(events);
    var s := NoticeRun(events);
    assert |s.delivered + s.queue| == |s.delivered| + |s.queue|;
    if s.queue == [] {
      assert s.delivered + s.queue == s.delivered;
    }
  }

  /**
   notify does what it can: an open desktop lets a producer on, its notice is accepted whenever
   fewer than 16 are queued and dropped only at 16, and a message takes the oldest notice.
   */
  lemma NoticesAreTaken(events: seq<NoticeEvent>, n: bytes)
    ensures var s := NoticeRun(events);
            && (!s.closed ==> NoticeStep(s, Check) == s.(checked := s.checked + 1))
            && (s.closed ==> NoticeStep(s, Check) == s)
    ensures var s := NoticeRun(events);
            s.checked > 0 ==>
              var s' := NoticeStep(s, Send(n));
              && s'.checked == s.checked - 1
              && (|s.queue| < 16 ==> s'.accepted == s.accepted + [n] && s'.posting == s.posting + 1)
              && (|s.queue| >= 16 ==> s'.accepted == s.accepted && s'.queue == s.queue && |s.queue| == 16)
    ensures var s := NoticeRun(events);
            s.pending > 0 ==>
              s.queue != [] && NoticeStep(s, Handle).delivered == s.delivered + [s.queue[0]]
  {
    NoticesAreCounted(events);
  }

  /** One notice from producer to tray. */
  function Round(n: bytes): seq<NoticeEvent> {
    [Check, Send(n), Post(true), Handle]
  }

  function Rounds(ns: seq<bytes>): seq<NoticeEvent> {
    if ns == [] then [] else Rounds(ns[..|ns| - 1]) + Round(ns[|ns| - 1])
  }

  /** Any number of notices, one after the other, are all delivered. */
  lemma {:induction false} RoundsDeliver(ns: seq<bytes>)
    ensures NoticeRun(Rounds(ns)) == NO_NOTICES.(accepted := ns, delivered := ns)
  {
    if ns != [] {
      var front, n := ns[..|ns| - 1], ns[|ns| - 1];
      RoundsDeliver(front);
      OneRound(Rounds(front), n);
      assert ns == front + [n];
    }
  }

  lemma OneRound(events: seq<NoticeEvent>, n: bytes)
    requires var s := NoticeRun(events); s == NO_NOTICES.(accepted := s.accepted, delivered := s.delivered)
    ensures var s := NoticeRun(events);
            NoticeRun(events + Round(n)) ==
            NO_NOTICES.(accepted := s.accepted + [n], delivered := s.delivered + [n])
  {
    NoticeRunSnoc(events, Check);
    NoticeRunSnoc(events + [Check], Send(n));
    NoticeRunSnoc(events + [Check] + [Send(n)], Post(true));
    NoticeRunSnoc(events + [Check] + [Send(n)] + [Post(true)], Handle);
    assert events + [Check] + [Send(n)] + [Post(true)] + [Handle] == events + Round(n);
    assert [] + [n] == [n] && [n][1..] == [];
  }

  lemma NoticeRunSnoc(events: seq<NoticeEvent>, e: NoticeEvent)
    ensures NoticeRun(events + [e]) == NoticeStep(NoticeRun(events), e)
  {
    assert (events + [e])[..|events|] == events;
  }

  /** A run that strands a notice: its post is lost, and nothing is left to deliver it. */
  lemma NoticeStranded(n: bytes)
    ensures var s := NoticeRun([Check, Send(n), Post(false)]);
            && !s.closed && s.posting == 0 && s.pending == 0
            && s.accepted == [n] && s.queue == [n] && s.delivered == []
  {
    assert NoticeRun([Check]) == NO_NOTICES.(checked := 1) by {
      NoticeRunSnoc([], Check);
      assert [] + [Check] == [Check];
    }
    assert NoticeRun([Check, Send(n)]) == NO_NOTICES.(queue := [n], posting := 1, accepted := [n]) by {
      NoticeRunSnoc([Check], Send(n));
      assert [Check] + [Send(n)] == [Check, Send(n)];
    }
    NoticeRunSnoc([Check, Send(n)], Post(false));
    assert [Check, Send(n)] + [Post(false)] == [Check, Send(n), Post(false)];
  }

  /** A message never finds the channel empty. */
  lemma MessagesFindNotices(events: seq<NoticeEvent>)
    ensures NoticeRun(events).pending > 0 ==> NoticeRun(events).queue != []
  {
    NoticesAreCounted(events);
  }

  // ----- key refreshes -----

  /**
   `loading` is the field loadingKeys. A refresh goroutine is first fetching, then has passed
   the closed check and is about to send, then is posting; `results` is the fill of the
   one-slot channel, `dropped` counts sends that found it full, `abandoned` refreshes that
   found the desktop closed.
   */
  datatype Refreshes = Refreshes(loading: bool, fetching: nat, sending: nat, results: nat, posting: nat,
                                 pending: nat, lost: nat, dropped: nat, abandoned: nat, closed: bool)

  const IDLE := Refreshes(false, 0, 0, 0, 0, 0, 0, 0, 0, false)

  datatype RefreshEvent = Refresh | Fetched | SendResult | PostReady(ok: bool) | HandleReady | CloseUI

  function RefreshStep(s: Refreshes, e: RefreshEvent): Refreshes {
    match e
    case Refresh => if s.loading then s else s.(loading := true, fetching := s.fetching + 1)
    case Fetched =>
      if s.fetching == 0 then s
      else if s.closed then s.(fetching := s.fetching - 1, abandoned := s.abandoned + 1)
      else s.(fetching := s.fetching - 1, sending := s.sending + 1)
    case SendResult =>
      if s.sending == 0 then s
      else if s.results == 1 then s.(sending := s.sending - 1, dropped := s.dropped + 1)
      else s.(sending := s.sending - 1, results := s.results + 1, posting := s.posting + 1)
    case PostReady(ok) =>
      if s.posting == 0 then s
      else if ok then s.(posting := s.posting - 1, pending := s.pending + 1)
      else s.(posting := s.posting - 1, lost := s.lost + 1)
    case HandleReady =>
      if s.pending == 0 then s
      else if s.results == 0 then s.(pending := s.pending - 1)
      else s.(pending := s.pending - 1, results := s.results - 1, loading := false)
    case CloseUI => s.(closed := true)
  }

  function RefreshRun(events: seq<RefreshEvent>): Refreshes {
    if events == [] then IDLE else RefreshStep(RefreshRun(events[..|events| - 1]), events[|events| - 1])
  }

  /**
   In every run `loading` holds exactly while one refresh is fetching, sending, in the channel
   or was abandoned at close; the channel is never full at a send, so nothing is dropped.
   */
  lemma {:induction false} OneRefreshAtATime(events: seq<RefreshEvent>)
    ensures var s := RefreshRun(events);
            && s.fetching + s.sending + s.results + s.abandoned == (if s.loading then 1 else 0)
            && s.results == s.posting + s.pending + s.lost
            && s.dropped == 0 && (s.abandoned > 0 ==> s.closed)
  {
    if events != [] {
      OneRefreshAtATime(events[..|events| - 1]);
    }
  }

  /** Before close, with nothing under way, Refresh is stuck exactly when its post was lost. */
  lemma StuckOnlyWhenLost(events: seq<RefreshEvent>)
    requires var s := RefreshRun(events); !s.closed && s.fetching == s.sending == s.posting == s.pending == 0
    ensures RefreshRun(events).loading <==> RefreshRun(events).lost > 0
  {
    OneRefreshAtATime(events);
  }

  /** A run that leaves Refresh stuck: loadingKeys holds, nothing is under way, and asking again does nothing. */
  lemma RefreshStuck()
    ensures var s := RefreshRun([Refresh, Fetched, SendResult, PostReady(false)]);
            && s.loading && !s.closed && s.fetching == s.sending == s.posting == s.pending == 0
            && RefreshStep(s, Refresh) == s
  {
    assert RefreshRun([]) == IDLE;
    assert [Refresh, Fetched, SendResult, PostReady(false)][..3] == [Refresh, Fetched, SendResult];
    assert [Refresh, Fetched, SendResult][..2] == [Refresh, Fetched];
    assert [Refresh, Fetched][..1] == [Refresh];
    assert [Refresh][..0] == [];
  }

  /** A refresh that is asked for before close and whose post succeeds comes back: loading ends. */
  lemma RefreshComesBack(events: seq<RefreshEvent>)
    requires var s := RefreshRun(events);
             !s.loading && !s.closed && s.fetching == s.sending == s.posting == s.pending == s.results == 0
    ensures var s := RefreshRun(events);
            && RefreshStep(s, Refresh) == s.(loading := true, fetching := 1)
            && RefreshRun(events + [Refresh] + [Fetched] + [SendResult] + [PostReady(true)] + [HandleReady]) == s
  {
    RefreshRound(RefreshRun(events));
    RefreshRunSnoc(events, Refresh);
    RefreshRunSnoc(events + [Refresh], Fetched);
    RefreshRunSnoc(events + [Refresh] + [Fetched], SendResult);
    RefreshRunSnoc(events + [Refresh] + [Fetched] + [SendResult], PostReady(true));
    RefreshRunSnoc(events + [Refresh] + [Fetched] + [SendResult] + [PostReady(true)], HandleReady);
  }

  lemma RefreshRound(s: Refreshes)
    requires !s.loading && !s.closed && s.fetching == s.sending == s.posting == s.pending == s.results == 0
    ensures RefreshStep(RefreshStep(RefreshStep(RefreshStep(RefreshStep(s, Refresh), Fetched), SendResult),
                                    PostReady(true)), HandleReady) == s
  {
  }

  lemma RefreshRunSnoc(events: seq<RefreshEvent>, e: RefreshEvent)
    ensures RefreshRun(events + [e]) == RefreshStep(RefreshRun(events), e)
  {
    assert (events + [e])[..|events|] == events;
  }
}
