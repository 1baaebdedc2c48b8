/**
 * The event assembler. Lines received from the cameras are fed one at a time
 * with the id of the camera they came from. A partial event per camera
 * collects the event type (from a subscribed `<eventType>` line) and the
 * state (from an `eventState` line); once complete it is promoted into the
 * table of complete events, keyed by camera and type, where repeats are
 * coalesced. A periodic sweep drops the entries that should not be reported
 * and runs the actions of those that have been quiet for longer than the
 * timeout.
 */
module Dispatcher {
  import opened Wrappers
  import opened Text
  import opened Utils
  import opened AppConfig
  import opened SqlHelper
  import opened EmailHelper

  const DefaultEventsTimerInterval: int := 4000
  const EventTypeTag: string := "eventType"
  const EventStateTag: string := "eventState"
  const EventBoundary: string := "--boundary"

  // ---------------------------------------------------------------------------
  // Subscriptions

  /** The line announcing an event of type `eventName`, upper-cased. */
  function Sentinel(eventName: string): string {
    ToUpper("<" + EventTypeTag + ">" + eventName + "</" + EventTypeTag + ">")
  }

  /** `ToDictionary` of the sentinels succeeds: no two subscriptions share one. */
  predicate SentinelsDistinct(subscriptions: seq<SubscriptionEventsConfig>) {
    forall i, j | 0 <= i < j < |subscriptions| ::
      Sentinel(subscriptions[i].Event) != Sentinel(subscriptions[j].Event)
  }

  /** `_matchLines`: each subscription's sentinel mapped to its event name. */
  function MatchLines(subscriptions: seq<SubscriptionEventsConfig>): (m: map<string, string>)
    requires SentinelsDistinct(subscriptions)
    ensures forall i | 0 <= i < |subscriptions| ::
      Sentinel(subscriptions[i].Event) in m && m[Sentinel(subscriptions[i].Event)] == subscriptions[i].Event
    ensures forall k | k in m :: exists i | 0 <= i < |subscriptions| ::
      k == Sentinel(subscriptions[i].Event) && m[k] == subscriptions[i].Event
  {
    map i | 0 <= i < |subscriptions| :: Sentinel(subscriptions[i].Event) := subscriptions[i].Event
  }

  /** `FirstOrDefault(e => e.Event == name)`; `None` stands for null. */
  function FirstConfig(subscriptions: seq<SubscriptionEventsConfig>, name: string): (r: Option<SubscriptionEventsConfig>)
    ensures r.None? <==> forall i | 0 <= i < |subscriptions| :: subscriptions[i].Event != name
    ensures r.Some? ==> r.value in subscriptions && r.value.Event == name
  {
    if |subscriptions| == 0 then Option.None
    else if subscriptions[0].Event == name then Some(subscriptions[0])
    else FirstConfig(subscriptions[1..], name)
  }

  /** The subscription found is the first of that name: every one before it has another name. */
  lemma {:induction false} FirstConfigIsFirst(subscriptions: seq<SubscriptionEventsConfig>, name: string, i: int)
    requires 0 <= i < |subscriptions| && subscriptions[i].Event == name
    requires forall j | 0 <= j < i :: subscriptions[j].Event != name
    ensures FirstConfig(subscriptions, name) == Some(subscriptions[i])
  {
    if i > 0 {
      var rest := subscriptions[1..];
      assert forall j | 0 <= j < i - 1 :: rest[j] == subscriptions[j + 1];
      FirstConfigIsFirst(rest, name, i - 1);
    }
  }

  // ---------------------------------------------------------------------------
  // Reporting and completeness

  /** Some element of `list` equals `s`, ignoring case. */
  predicate AnyEqualsIgnoreCase(list: seq<string>, s: string) {
    exists i | 0 <= i < |list| :: EqualsIgnoreCase(list[i], s)
  }

  /** The expression of `ShouldBeReported` for the subscription found, as written. */
  predicate Reported(config: SubscriptionEventsConfig, rawEventState: string) {
    && (|config.FilterList| == 0 || AnyEqualsIgnoreCase(config.FilterList, rawEventState))
    && (|config.IgnoreList| > 0 || !AnyEqualsIgnoreCase(config.IgnoreList, rawEventState))
  }

  /**
   * `ShouldBeReported`: judged by the first subscription of the event's type,
   * whose filter alone decides.
   */
  predicate ShouldBeReported(subscriptions: seq<SubscriptionEventsConfig>, e: EventRecord)
    requires FirstConfig(subscriptions, e.EventType).Some?
    ensures var config := FirstConfig(subscriptions, e.EventType).value;
      ShouldBeReported(subscriptions, e)
      <==> |config.FilterList| == 0 || AnyEqualsIgnoreCase(config.FilterList, e.RawEventState)
  {
    ReportedIffFilterMatches(FirstConfig(subscriptions, e.EventType).value, e.RawEventState);
    Reported(FirstConfig(subscriptions, e.EventType).value, e.RawEventState)
  }

  /**
   * An event is reported exactly when its subscription has no filter or the
   * filter names its state: the second conjunct holds for every ignore list
   * (an empty list has no match), so the ignore list never matters.
   */
  lemma ReportedIffFilterMatches(config: SubscriptionEventsConfig, rawEventState: string)
    ensures Reported(config, rawEventState)
        <==> |config.FilterList| == 0 || AnyEqualsIgnoreCase(config.FilterList, rawEventState)
    ensures forall ignore: seq<string> ::
      Reported(config.(IgnoreList := ignore), rawEventState) == Reported(config, rawEventState)
  {
  }

  /** `IsEventComplete`: address and type not blank, and a state above 0. */
  predicate IsEventComplete(e: EventRecord)
    ensures IsEventComplete(e) ==> |e.IpAddress| > 0 && |e.EventType| > 0 && e.EventState >= 1
  {
    !IsBlank(e.IpAddress) && !IsBlank(e.EventType) && e.EventState > 0
  }

  /** The upper-cased boundary does not contain the upper-cased `eventState` tag. */
  lemma NoStateTagInBoundary()
    ensures !Contains("--BOUNDARY", ToUpper(EventStateTag))
  {
    var t := ToUpper(EventStateTag);
    assert t == "EVENTSTATE";
    var b := "--BOUNDARY";
    forall k | 0 <= k <= |b|
      ensures !(t <= b[k..])
    {
      assert |b[k..]| < |t| || b[k..][0] != t[0];
    }
    ContainsAt(b, t);
  }

  /** `sub` occurs in `s` only at some position `k`. */
  lemma {:induction false} ContainsAt(s: string, sub: string)
    requires forall k | 0 <= k <= |s| :: !(sub <= s[k..])
    ensures !Contains(s, sub)
    decreases |s|
  {
    assert s[0..] == s;
    if |s| > 0 {
      forall k | 0 <= k <= |s[1..]|
        ensures !(sub <= s[1..][k..])
      {
        assert s[1..][k..] == s[k + 1..];
      }
      ContainsAt(s[1..], sub);
    }
  }

  /** The printed address of a camera is never blank. */
  lemma AddressNotBlank(id: int)
    ensures !IsBlank(LongToIpAddress(id))
  {
    var s := LongToIpAddress(id);
    var u := id % TwoTo32;
    var r2 := u / 256 / 256;
    var head := NatToString(r2 / 256);
    assert s[0] == head[0];
    assert IsDigit(head[0]);
  }

  /**
   * An event becomes complete exactly when a type that is not blank and a
   * state above 0 have both been given to it; a fresh event is never complete.
   */
  lemma CompletenessOfAssembly(id: int, now: int, eventType: string, actions: seq<EventAction>, state: int, raw: string)
    ensures !IsEventComplete(InitialRecord(LongToIpAddress(id), now))
    ensures var typed := InitialRecord(LongToIpAddress(id), now).(EventType := eventType, Actions := actions);
      IsEventComplete(typed.(EventState := state, RawEventState := raw)) <==> !IsBlank(eventType) && state > 0
    ensures var stated := InitialRecord(LongToIpAddress(id), now).(EventState := state, RawEventState := raw);
      IsEventComplete(stated.(EventType := eventType, Actions := actions)) <==> !IsBlank(eventType) && state > 0
  {
    AddressNotBlank(id);
  }

  /** `CreateCompleteEventKey`: the key of an event of source `id` in the complete table. */
  function CompleteEventKey(e: EventRecord, id: int): (key: string)
    ensures SourcePrefix(id) <= key && key[|SourcePrefix(id)|..] == e.EventType
  {
    GenerateSourceKey(id, e.EventType)
  }

  /** The interval of the sweep timer. */
  function TimerInterval(eventsTimeOut: int): (r: int)
    ensures r > 0
    ensures eventsTimeOut > 0 ==> r == 4 * eventsTimeOut && r > eventsTimeOut
    ensures eventsTimeOut <= 0 ==> r == DefaultEventsTimerInterval
  {
    if eventsTimeOut > 0 then eventsTimeOut * 4 else DefaultEventsTimerInterval
  }

  /** `_eventsTimeOut`: the timeout setting in seconds, times 1000 in wrapping `int` arithmetic. */
  function EventsTimeOut(setting: Option<string>): (r: int)
    ensures IsInt32(r)
  {
    Wrap32(GetEventsTimeout(setting) * 1000)
  }

  /**
   * Up to 2147483 seconds the timeout is exact milliseconds; from 2147484 to
   * 4294967 seconds the product overflows `int` once and comes out negative,
   * 2^32 below the true value.
   */
  lemma EventsTimeOutOfSeconds(seconds: int)
    requires 0 <= seconds <= 4294967
    ensures seconds <= 2147483 ==> EventsTimeOut(Some(IntToString(seconds))) == seconds * 1000
    ensures seconds >= 2147484 ==> EventsTimeOut(Some(IntToString(seconds))) == seconds * 1000 - 0x1_0000_0000 < 0
  {
    GetEventsTimeoutOfText(seconds);
    if seconds <= 2147483 {
      assert IsInt32(seconds * 1000);
    } else {
      Wrap32JustAbove(seconds * 1000);
    }
  }

  /**
   * `new Timer(interval)` refuses an interval above `Int32.MaxValue`
   * milliseconds. Among the settings of 0 to 4294967 seconds, the interval
   * fits exactly up to 536870 seconds and again from 2147484 seconds on, where
   * the wrapped timeout is negative and the default interval is used.
   */
  lemma TimerIntervalFits(seconds: int)
    requires 0 <= seconds <= 4294967
    ensures TimerInterval(EventsTimeOut(Some(IntToString(seconds)))) <= Int32Max
        <==> seconds <= 536870 || seconds >= 2147484
    ensures seconds >= 2147484 ==> TimerInterval(EventsTimeOut(Some(IntToString(seconds)))) == DefaultEventsTimerInterval
  {
    EventsTimeOutOfSeconds(seconds);
    var t := EventsTimeOut(Some(IntToString(seconds)));
    if 0 < seconds <= 2147483 {
      assert TimerInterval(t) == seconds * 4000;
      if seconds <= 536870 {
        assert seconds * 4000 <= 536870 * 4000;
      } else {
        assert seconds * 4000 >= 536871 * 4000;
      }
    }
  }

  // ---------------------------------------------------------------------------
  // One line

  /** What a line does to the partial event of its camera. */
  datatype LineKind =
    | Blank                                                  // ignored before anything else
    | Boundary                                               // ends the partial event
    | Subscribed(eventType: string, actions: seq<EventAction>) // sets type and actions
    | State(eventState: int, rawEventState: string)          // sets the state
    | Unrecognized                                           // only ensures a partial exists

  /** The fields a line of kind `kind` assigns. */
  function Assign(e: EventRecord, kind: LineKind): EventRecord {
    match kind
    case Subscribed(t, actions) => e.(EventType := t, Actions := actions)
    case State(s, raw) => e.(EventState := s, RawEventState := raw)
    case _ => e
  }

  /** A repeat coalesced into an entry: one more occurrence, ending now (`int` wraps). */
  function Bump(e: EventRecord, now: int): EventRecord {
    e.(Count := Wrap32(e.Count + 1), TimeEnd := now)
  }

  // ---------------------------------------------------------------------------
  // The sweep

  predicate Expired(e: EventRecord, now: int, eventsTimeOut: int) {
    now - e.TimeEnd > eventsTimeOut
  }


  /** The actions of an evicted event, each once and in list order. */
  function ActionsTrace(e: EventRecord): (r: seq<(EventAction, EventRecord)>)
    ensures |r| == |e.Actions|
    ensures forall i | 0 <= i < |r| :: r[i] == (e.Actions[i], e)
  {
    seq(|e.Actions|, i requires 0 <= i < |e.Actions| => (e.Actions[i], e))
  }

  /** The records of the e-mail actions of a trace, in order. */
  function EmailRecords(trace: seq<(EventAction, EventRecord)>): seq<EventRecord> {
    if |trace| == 0 then []
    else EmailRecords(trace[..|trace| - 1]) + (if trace[|trace| - 1].0 == Email then [trace[|trace| - 1].1] else [])
  }

  /** One more step of a trace adds its record when it is an e-mail action. */
  lemma EmailRecordsSnoc(trace: seq<(EventAction, EventRecord)>, a: EventAction, e: EventRecord)
    ensures a == Email ==> EmailRecords(trace + [(a, e)]) == EmailRecords(trace) + [e]
    ensures a != Email ==> EmailRecords(trace + [(a, e)]) == EmailRecords(trace)
  {
    assert (trace + [(a, e)])[..|trace|] == trace;
    assert EmailRecords(trace) + [] == EmailRecords(trace);
  }

  /** The notifier after the first `j + 1` steps of a trace, from the notifier after the first `j`. */
  lemma NotifyStep(lastSent: map<string, int>, frequency: int, outbox: seq<EventRecord>,
                   trace: seq<(EventAction, EventRecord)>, j: int, now: int)
    requires 0 <= j < |trace|
    ensures var before := NotifyAll(lastSent, frequency, outbox, EmailRecords(trace[..j]), now);
      NotifyAll(lastSent, frequency, outbox, EmailRecords(trace[..j + 1]), now)
      == if trace[j].0 == Email then Notify(before.0, frequency, before.1, trace[j].1, now) else before
  {
    assert trace[..j + 1] == trace[..j] + [trace[j]];
    EmailRecordsSnoc(trace[..j], trace[j].0, trace[j].1);
    NotifyAllSnoc(lastSent, frequency, outbox, EmailRecords(trace[..j]), trace[j].1, now);
  }

  /** The e-mail records of two traces in a row are those of the first, then those of the second. */
  lemma {:induction false} EmailRecordsConcat(a: seq<(EventAction, EventRecord)>, b: seq<(EventAction, EventRecord)>)
    ensures EmailRecords(a + b) == EmailRecords(a) + EmailRecords(b)
    decreases |b|
  {
    if |b| == 0 {
      assert a + b == a;
    } else {
      var b' := b[..|b| - 1];
      assert (a + b)[..|a + b| - 1] == a + b';
      EmailRecordsConcat(a, b');
    }
  }

  /** Every record of the view has a subscription. */
  predicate ViewSubscribed(subscriptions: seq<SubscriptionEventsConfig>, view: map<string, EventRecord>) {
    forall k | k in view :: FirstConfig(subscriptions, view[k].EventType).Some?
  }

  /**
   * The sweep removes an entry that should not be reported, or one that is
   * reported and expired. The entries of a valid dispatcher all have a
   * subscription; one without (where `ShouldBeReported` would dereference
   * null) is never evicted here.
   */
  predicate Evicted(subscriptions: seq<SubscriptionEventsConfig>, e: EventRecord, now: int, eventsTimeOut: int) {
    FirstConfig(subscriptions, e.EventType).Some?
    && (!ShouldBeReported(subscriptions, e) || Expired(e, now, eventsTimeOut))
  }

  /** The actions the sweep runs for one entry: all of them when it is reported and expired. */
  function EntryTrace(subscriptions: seq<SubscriptionEventsConfig>, e: EventRecord, now: int, eventsTimeOut: int)
    : seq<(EventAction, EventRecord)>
  {
    if FirstConfig(subscriptions, e.EventType).Some? && ShouldBeReported(subscriptions, e) && Expired(e, now, eventsTimeOut)
    then ActionsTrace(e) else []
  }

  /**
   * An entry that a sweep at `now` keeps runs nothing then; a sweep at a
   * later instant, once the entry has been quiet for longer than the
   * timeout, evicts it and runs all of its actions.
   */
  lemma SurvivorRunsLater(subscriptions: seq<SubscriptionEventsConfig>, e: EventRecord, now: int, later: int,
                          eventsTimeOut: int)
    requires FirstConfig(subscriptions, e.EventType).Some?
    requires !Evicted(subscriptions, e, now, eventsTimeOut)
    requires later - e.TimeEnd > eventsTimeOut
    ensures EntryTrace(subscriptions, e, now, eventsTimeOut) == []
    ensures now < later && ShouldBeReported(subscriptions, e)
    ensures Evicted(subscriptions, e, later, eventsTimeOut)
    ensures EntryTrace(subscriptions, e, later, eventsTimeOut) == ActionsTrace(e)
  {
  }

  /** The actions the sweep runs for the key `k` of `view`. */
  function KeyTrace(subscriptions: seq<SubscriptionEventsConfig>, view: map<string, EventRecord>,
                    k: string, now: int, eventsTimeOut: int): seq<(EventAction, EventRecord)>
  {
    if k in view then EntryTrace(subscriptions, view[k], now, eventsTimeOut) else []
  }

  /** The actions the sweep runs, visiting the keys of `view` in `order`. */
  function SweepTrace(subscriptions: seq<SubscriptionEventsConfig>, view: map<string, EventRecord>,
                      order: seq<string>, now: int, eventsTimeOut: int): seq<(EventAction, EventRecord)>
  {
    if |order| == 0 then []
    else
      SweepTrace(subscriptions, view, order[..|order| - 1], now, eventsTimeOut)
      + KeyTrace(subscriptions, view, order[|order| - 1], now, eventsTimeOut)
  }

  /**
   * The notifier's state after a sweep visiting the keys of `view` in `order`:
   * each evicted entry's e-mail actions, entry by entry.
   */
  function SweepMail(lastSent: map<string, int>, frequency: int, outbox: seq<EventRecord>,
                     subscriptions: seq<SubscriptionEventsConfig>, view: map<string, EventRecord>,
                     order: seq<string>, now: int, eventsTimeOut: int): (map<string, int>, seq<EventRecord>)
  {
    if |order| == 0 then (lastSent, outbox)
    else
      var (l, o) := SweepMail(lastSent, frequency, outbox, subscriptions, view, order[..|order| - 1], now, eventsTimeOut);
      NotifyAll(l, frequency, o, EmailRecords(KeyTrace(subscriptions, view, order[|order| - 1], now, eventsTimeOut)), now)
  }

  /** Entry by entry, the sweep's notifications are those of the e-mail actions of its whole trace, in order. */
  lemma {:induction false} SweepMailIsNotifyAll(lastSent: map<string, int>, frequency: int, outbox: seq<EventRecord>,
                                                subscriptions: seq<SubscriptionEventsConfig>, view: map<string, EventRecord>,
                                                order: seq<string>, now: int, eventsTimeOut: int)
    ensures SweepMail(lastSent, frequency, outbox, subscriptions, view, order, now, eventsTimeOut)
         == NotifyAll(lastSent, frequency, outbox, EmailRecords(SweepTrace(subscriptions, view, order, now, eventsTimeOut)), now)
  {
    if |order| > 0 {
      var init := order[..|order| - 1];
      var before := SweepTrace(subscriptions, view, init, now, eventsTimeOut);
      var entry := KeyTrace(subscriptions, view, order[|order| - 1], now, eventsTimeOut);
      SweepMailIsNotifyAll(lastSent, frequency, outbox, subscriptions, view, init, now, eventsTimeOut);
      EmailRecordsConcat(before, entry);
      NotifyAllConcat(lastSent, frequency, outbox, EmailRecords(before), EmailRecords(entry), now);
    }
  }

  /** A sweep over two runs of keys runs the first run's actions, then the second's. */
  lemma {:induction false} SweepTraceConcat(subscriptions: seq<SubscriptionEventsConfig>, view: map<string, EventRecord>,
                                            a: seq<string>, b: seq<string>, now: int, eventsTimeOut: int)
    ensures SweepTrace(subscriptions, view, a + b, now, eventsTimeOut)
         == SweepTrace(subscriptions, view, a, now, eventsTimeOut) + SweepTrace(subscriptions, view, b, now, eventsTimeOut)
    decreases |b|
  {
    if |b| > 0 {
      var b' := b[..|b| - 1];
      assert (a + b)[..|a + b| - 1] == a + b';
      SweepTraceConcat(subscriptions, view, a, b', now, eventsTimeOut);
    } else {
      assert a + b == a;
    }
  }

  /**
   * The actions of the entry visited at position `i` run right after those of
   * the entries before it and before those after it: once each, in list
   * order, and only when the entry is reported and expired.
   */
  lemma SweepTraceAt(subscriptions: seq<SubscriptionEventsConfig>, view: map<string, EventRecord>,
                     order: seq<string>, i: int, now: int, eventsTimeOut: int)
    requires 0 <= i < |order|
    ensures SweepTrace(subscriptions, view, order, now, eventsTimeOut)
         == SweepTrace(subscriptions, view, order[..i], now, eventsTimeOut)
            + KeyTrace(subscriptions, view, order[i], now, eventsTimeOut)
            + SweepTrace(subscriptions, view, order[i + 1..], now, eventsTimeOut)
  {
    assert order == order[..i + 1] + order[i + 1..];
    SweepTraceConcat(subscriptions, view, order[..i + 1], order[i + 1..], now, eventsTimeOut);
    assert order[..i + 1][..i] == order[..i];
  }

  /** Every action the sweep runs belongs to a visited entry that is reported and expired. */
  lemma {:induction false} SweepTraceSound(subscriptions: seq<SubscriptionEventsConfig>, view: map<string, EventRecord>,
                                           order: seq<string>, now: int, eventsTimeOut: int)
    ensures forall p | p in SweepTrace(subscriptions, view, order, now, eventsTimeOut) ::
      exists i | 0 <= i < |order| ::
        && order[i] in view && p.1 == view[order[i]]
        && p.0 in p.1.Actions
        && FirstConfig(subscriptions, p.1.EventType).Some?
        && ShouldBeReported(subscriptions, p.1)
        && Expired(p.1, now, eventsTimeOut)
  {
    if |order| > 0 {
      var init := order[..|order| - 1];
      SweepTraceSound(subscriptions, view, init, now, eventsTimeOut);
      forall p | p in SweepTrace(subscriptions, view, order, now, eventsTimeOut)
        ensures exists i | 0 <= i < |order| ::
          && order[i] in view && p.1 == view[order[i]]
          && p.0 in p.1.Actions
          && FirstConfig(subscriptions, p.1.EventType).Some?
          && ShouldBeReported(subscriptions, p.1)
          && Expired(p.1, now, eventsTimeOut)
      {
        if p in SweepTrace(subscriptions, view, init, now, eventsTimeOut) {
          var i :| 0 <= i < |init| && init[i] in view && p.1 == view[init[i]] && p.0 in p.1.Actions
            && FirstConfig(subscriptions, p.1.EventType).Some?
            && ShouldBeReported(subscriptions, p.1) && Expired(p.1, now, eventsTimeOut);
          assert init[i] == order[i];
        } else {
          var last := |order| - 1;
          var e := view[order[last]];
          var k :| 0 <= k < |ActionsTrace(e)| && ActionsTrace(e)[k] == p;
          assert p.0 == e.Actions[k];
        }
      }
    }
  }

  /** Entries that survive a sweep run nothing when swept again at the same instant. */
  lemma {:induction false} SweepOfSurvivorsIsQuiet(subscriptions: seq<SubscriptionEventsConfig>, view: map<string, EventRecord>,
                                                   order: seq<string>, now: int, eventsTimeOut: int)
    requires forall i | 0 <= i < |order| :: order[i] in view ==> !Evicted(subscriptions, view[order[i]], now, eventsTimeOut)
    ensures SweepTrace(subscriptions, view, order, now, eventsTimeOut) == []
  {
    if |order| > 0 {
      var init := order[..|order| - 1];
      assert forall i | 0 <= i < |init| :: init[i] == order[i];
      SweepOfSurvivorsIsQuiet(subscriptions, view, init, now, eventsTimeOut);
    }
  }

  /** The entries of `table` left once the keys in `done` have been visited. */
  function Kept<T>(subscriptions: seq<SubscriptionEventsConfig>, table: map<string, T>, view: map<string, EventRecord>,
                   done: seq<string>, now: int, eventsTimeOut: int): map<string, T>
  {
    map k | k in table && !(k in done && k in view && Evicted(subscriptions, view[k], now, eventsTimeOut)) :: table[k]
  }

  /** Before the first visit every entry is left. */
  lemma KeptNone<T>(subscriptions: seq<SubscriptionEventsConfig>, table: map<string, T>, view: map<string, EventRecord>,
                    now: int, eventsTimeOut: int)
    ensures Kept(subscriptions, table, view, [], now, eventsTimeOut) == table
  {
  }

  /** Visiting one more key removes it exactly when it is evicted. */
  lemma KeptStep<T>(subscriptions: seq<SubscriptionEventsConfig>, table: map<string, T>, view: map<string, EventRecord>,
                    done: seq<string>, id: string, now: int, eventsTimeOut: int)
    requires id in table && id in view && id !in done
    ensures id in Kept(subscriptions, table, view, done, now, eventsTimeOut)
    ensures Kept(subscriptions, table, view, done + [id], now, eventsTimeOut)
         == if Evicted(subscriptions, view[id], now, eventsTimeOut)
            then Kept(subscriptions, table, view, done, now, eventsTimeOut) - {id}
            else Kept(subscriptions, table, view, done, now, eventsTimeOut)
  {
  }

  /** The actions run: the visit of `order[i]` extends the trace of the keys before it. */
  lemma TraceAdvance(subscriptions: seq<SubscriptionEventsConfig>, view: map<string, EventRecord>,
                     order: seq<string>, i: int, now: int, eventsTimeOut: int,
                     trace0: seq<(EventAction, EventRecord)>, trace: seq<(EventAction, EventRecord)>,
                     trace': seq<(EventAction, EventRecord)>)
    requires 0 <= i < |order| && order[i] in view
    requires trace == trace0 + SweepTrace(subscriptions, view, order[..i], now, eventsTimeOut)
    requires trace' == trace + EntryTrace(subscriptions, view[order[i]], now, eventsTimeOut)
    ensures trace' == trace0 + SweepTrace(subscriptions, view, order[..i + 1], now, eventsTimeOut)
  {
    SweepTraceStep(subscriptions, view, order, i, now, eventsTimeOut);
    var entry := EntryTrace(subscriptions, view[order[i]], now, eventsTimeOut);
    assert trace0 + SweepTrace(subscriptions, view, order[..i], now, eventsTimeOut) + entry
        == trace0 + (SweepTrace(subscriptions, view, order[..i], now, eventsTimeOut) + entry);
  }

  /** The notifier: the visit of `order[i]` extends its state after the keys before it. */
  lemma MailAdvance(lastSent0: map<string, int>, frequency: int, outbox0: seq<EventRecord>,
                    subscriptions: seq<SubscriptionEventsConfig>, view: map<string, EventRecord>,
                    order: seq<string>, i: int, now: int, eventsTimeOut: int,
                    lastSent: map<string, int>, outbox: seq<EventRecord>, lastSent': map<string, int>, outbox': seq<EventRecord>)
    requires 0 <= i < |order| && order[i] in view
    requires (lastSent, outbox) == SweepMail(lastSent0, frequency, outbox0, subscriptions, view, order[..i], now, eventsTimeOut)
    requires (lastSent', outbox')
          == NotifyAll(lastSent, frequency, outbox, EmailRecords(EntryTrace(subscriptions, view[order[i]], now, eventsTimeOut)), now)
    ensures (lastSent', outbox') == SweepMail(lastSent0, frequency, outbox0, subscriptions, view, order[..i + 1], now, eventsTimeOut)
  {
    SweepMailStep(lastSent0, frequency, outbox0, subscriptions, view, order, i, now, eventsTimeOut);
  }

  /** The entries left after `order[..i + 1]`: those after `order[..i]`, less `order[i]` when it is evicted. */
  lemma KeptAdvance<T>(subscriptions: seq<SubscriptionEventsConfig>, table: map<string, T>, view: map<string, EventRecord>,
                       order: seq<string>, i: int, now: int, eventsTimeOut: int)
    requires Distinct(order) && 0 <= i < |order| && order[i] in table && order[i] in view
    ensures Kept(subscriptions, table, view, order[..i + 1], now, eventsTimeOut)
         == if Evicted(subscriptions, view[order[i]], now, eventsTimeOut)
            then Kept(subscriptions, table, view, order[..i], now, eventsTimeOut) - {order[i]}
            else Kept(subscriptions, table, view, order[..i], now, eventsTimeOut)
  {
    var done := order[..i];
    assert order[..i + 1] == done + [order[i]];
    assert order[i] !in done;
    KeptStep(subscriptions, table, view, done, order[i], now, eventsTimeOut);
  }

  /** The trace after `order[..i + 1]` is the trace after `order[..i]`, then the actions of `order[i]`. */
  lemma SweepTraceStep(subscriptions: seq<SubscriptionEventsConfig>, view: map<string, EventRecord>,
                       order: seq<string>, i: int, now: int, eventsTimeOut: int)
    requires 0 <= i < |order| && order[i] in view
    ensures SweepTrace(subscriptions, view, order[..i + 1], now, eventsTimeOut)
         == SweepTrace(subscriptions, view, order[..i], now, eventsTimeOut) + EntryTrace(subscriptions, view[order[i]], now, eventsTimeOut)
  {
    var o := order[..i + 1];
    assert o[..|o| - 1] == order[..i] && o[|o| - 1] == order[i];
  }

  /** The notifier after `order[..i + 1]` is the notifier after `order[..i]`, then the e-mails of `order[i]`. */
  lemma SweepMailStep(lastSent: map<string, int>, frequency: int, outbox: seq<EventRecord>,
                      subscriptions: seq<SubscriptionEventsConfig>, view: map<string, EventRecord>,
                      order: seq<string>, i: int, now: int, eventsTimeOut: int)
    requires 0 <= i < |order| && order[i] in view
    ensures var (l, o) := SweepMail(lastSent, frequency, outbox, subscriptions, view, order[..i], now, eventsTimeOut);
      SweepMail(lastSent, frequency, outbox, subscriptions, view, order[..i + 1], now, eventsTimeOut)
      == NotifyAll(l, frequency, o, EmailRecords(EntryTrace(subscriptions, view[order[i]], now, eventsTimeOut)), now)
  {
    var o := order[..i + 1];
    assert o[..|o| - 1] == order[..i] && o[|o| - 1] == order[i];
  }

  /** Once every key has been visited, exactly the entries that are not evicted are left. */
  lemma KeptAll<T>(subscriptions: seq<SubscriptionEventsConfig>, table: map<string, T>, view: map<string, EventRecord>,
                   done: seq<string>, now: int, eventsTimeOut: int)
    requires table.Keys == view.Keys
    requires forall k | k in table :: k in done
    ensures Kept(subscriptions, table, view, done, now, eventsTimeOut)
         == map k | k in table && !Evicted(subscriptions, view[k], now, eventsTimeOut) :: table[k]
  {
  }

  /** Distinct elements. */
  predicate Distinct(s: seq<string>) {
    forall i, j | 0 <= i < j < |s| :: s[i] != s[j]
  }

  /** `Keys.ToArray()`: the keys of a table in an order the dictionary chooses. */
  method KeysInSomeOrder(keys: set<string>) returns (order: seq<string>)
    ensures Distinct(order) && |order| == |keys|
    ensures forall k :: k in order <==> k in keys
  {
    order := [];
    var rest := keys;
    while rest != {}
      invariant Distinct(order)
      invariant forall k :: k in order <==> k in keys && k !in rest
      invariant rest <= keys
      invariant |order| + |rest| == |keys|
      decreases |rest|
    {
      var k :| k in rest;
      order := order + [k];
      rest := rest - {k};
    }
  }

  // ---------------------------------------------------------------------------
  // The dispatcher

  class Dispatcher {
    const subscriptions: seq<SubscriptionEventsConfig>
    const matchLines: map<string, string>
    const eventStates: map<string, int>
    const eventsTimeOut: int
    const timerInterval: int
    /** The XML extractor: the inner text of the line's single `eventState` element, if there is exactly one. */
    const innerText: string -> Option<string>
    const emailHelper: EmailHelper
    var partialEvents: map<int, CameraEvent>
    var completeEvents: map<string, CameraEvent>
    /** Every action the sweeps have run, with the event it ran for. */
    ghost var dispatched: seq<(EventAction, EventRecord)>

    /** The constant part of the state, fixed by the constructor. */
    predicate Configured() {
      && SentinelsDistinct(subscriptions)
      && matchLines == MatchLines(subscriptions)
    }

    predicate HasSubscription(eventType: string) {
      FirstConfig(subscriptions, eventType).Some?
    }

    predicate Valid()
      reads this`partialEvents, this`completeEvents, partialEvents.Values, completeEvents.Values
    {
      // one partial object per camera
      && (forall i, j | i in partialEvents && j in partialEvents && i != j :: partialEvents[i] != partialEvents[j])
      // an object is in the complete table only under keys of the camera it was assembled for
      && (forall k, j | k in completeEvents && j in partialEvents && completeEvents[k] == partialEvents[j] ::
            SourcePrefix(j) <= k)
      && (forall j | j in partialEvents :: partialEvents[j].EventType == "" || HasSubscription(partialEvents[j].EventType))
      && (forall k | k in completeEvents :: HasSubscription(completeEvents[k].EventType))
    }

    constructor(subscriptionEventsConfig: seq<SubscriptionEventsConfig>,
                eventsTimeoutSetting: Option<string>, maxEmailFrequencySetting: Option<string>,
                states: map<string, int>, extractor: string -> Option<string>)
      requires SentinelsDistinct(subscriptionEventsConfig)
      requires TimerInterval(EventsTimeOut(eventsTimeoutSetting)) <= Int32Max
      ensures Configured() && Valid()
      ensures subscriptions == subscriptionEventsConfig && eventStates == states && innerText == extractor
      ensures eventsTimeOut == EventsTimeOut(eventsTimeoutSetting)
      ensures timerInterval == TimerInterval(eventsTimeOut)
      ensures fresh(emailHelper)
      ensures emailHelper.maxFrequency == EffectiveFrequency(GetMaxEmailFrequency(maxEmailFrequencySetting))
      ensures emailHelper.lastSent == map[] && emailHelper.outbox == []
      ensures partialEvents == map[] && completeEvents == map[] && dispatched == []
    {
      var timeOut := Wrap32(GetEventsTimeout(eventsTimeoutSetting) * 1000);
      eventsTimeOut := timeOut;
      eventStates := states;
      subscriptions := subscriptionEventsConfig;
      matchLines := MatchLines(subscriptionEventsConfig);
      timerInterval := if timeOut > 0 then timeOut * 4 else DefaultEventsTimerInterval;
      emailHelper := new EmailHelper(GetMaxEmailFrequency(maxEmailFrequencySetting));
      innerText := extractor;
      partialEvents := map[];
      completeEvents := map[];
      dispatched := [];
    }

    /** `ParseSingleAttribute(line, "eventState")`: the extracted text, upper-cased. */
    function ParseSingleAttribute(line: string): (r: Option<string>)
      ensures r.Some? <==> innerText(line).Some?
      ensures r.Some? ==> |r.value| == |innerText(line).value| && ToUpper(r.value) == r.value
    {
      match innerText(line)
      case Some(t) => ToUpperIdempotent(t); Some(ToUpper(t))
      case None => Option.None
    }

    /** How `Process` treats `line`, given whether its camera has a partial event. */
    function Classify(line: Option<string>, hasPartial: bool): (kind: LineKind)
      requires Configured()
      ensures kind == Blank <==> IsNullOrWhiteSpace(line)
      ensures kind == Boundary ==> hasPartial && EqualsIgnoreCase(line.value, EventBoundary)
      ensures kind.Subscribed? ==> HasSubscription(kind.eventType)
    {
      if IsNullOrWhiteSpace(line) then Blank
      else if EqualsIgnoreCase(line.value, EventBoundary) && hasPartial then Boundary
      else if ToUpper(line.value) in matchLines then
        var t := matchLines[ToUpper(line.value)];
        Subscribed(t, FirstConfig(subscriptions, t).value.Actions)
      else if ContainsIgnoreCase(line.value, EventStateTag) then
        var raw := ParseSingleAttribute(line.value);
        if IsNullOrWhiteSpace(raw) || raw.value !in eventStates then Unrecognized
        else State(eventStates[raw.value], raw.value)
      else Unrecognized
    }

    /**
     * A sentinel line, in any case, gives its subscription's name and the
     * action list of the first subscription of that name.
     */
    lemma SentinelSelectsSubscription(line: string, hasPartial: bool, i: int)
      requires Configured()
      requires 0 <= i < |subscriptions| && ToUpper(line) == Sentinel(subscriptions[i].Event)
      ensures Classify(Some(line), hasPartial)
           == Subscribed(subscriptions[i].Event, FirstConfig(subscriptions, subscriptions[i].Event).value.Actions)
    {
      var s := Sentinel(subscriptions[i].Event);
      assert s[0] == '<';
      assert !IsBlank(line) by {
        assert UpperChar(line[0]) == '<';
      }
      assert !EqualsIgnoreCase(line, EventBoundary) by {
        assert ToUpper(EventBoundary)[0] == '-';
      }
    }

    /**
     * A boundary line, in any case, ends the partial event when there is one;
     * without one it falls through every test and only creates an empty partial.
     */
    lemma BoundaryOutcome(line: string)
      requires Configured()
      requires EqualsIgnoreCase(line, EventBoundary)
      ensures Classify(Some(line), true) == Boundary
      ensures Classify(Some(line), false) == Unrecognized
    {
      var u := ToUpper(line);
      assert ToUpper(EventBoundary) == "--BOUNDARY" by {
        var b := ToUpper(EventBoundary);
        assert |b| == 10 && forall k | 0 <= k < 10 :: b[k] == "--BOUNDARY"[k];
      }
      assert |line| == 10 && u[0] == UpperChar(line[0]) == '-';
      assert !IsBlank(line) by {
        assert line[0] == '-';
      }
      forall i | 0 <= i < |subscriptions|
        ensures u != Sentinel(subscriptions[i].Event)
      {
        assert Sentinel(subscriptions[i].Event)[0] == '<';
      }
      assert !ContainsIgnoreCase(line, EventStateTag) by {
        NoStateTagInBoundary();
      }
    }

    /**
     * An `eventState` line is dropped, changing neither the state nor the
     * complete table, exactly when the extractor finds no single element, the
     * text is blank, or the upper-cased text is not a known state.
     */
    lemma StateLineOutcome(line: string, hasPartial: bool)
      requires Configured()
      requires !IsBlank(line) && !EqualsIgnoreCase(line, EventBoundary) && ToUpper(line) !in matchLines
      requires ContainsIgnoreCase(line, EventStateTag)
      ensures var kind := Classify(Some(line), hasPartial);
        && (kind == Unrecognized <==>
              innerText(line).None? || IsBlank(ToUpper(innerText(line).value))
              || ToUpper(innerText(line).value) !in eventStates)
        && (kind.State? ==>
              kind.rawEventState == ToUpper(innerText(line).value)
              && kind.eventState == eventStates[kind.rawEventState])
    {
    }

    /** The record of `id`'s partial event, or of the empty event `Process` would create for it. */
    function PartialRecord(id: int, now: int): EventRecord
      reads this`partialEvents, partialEvents.Values
    {
      if id in partialEvents then partialEvents[id].Record() else InitialRecord(LongToIpAddress(id), now)
    }

    /** The partial object of `id`, as a set (empty when there is none). */
    function PartialObject(id: int): set<CameraEvent>
      reads this`partialEvents
    {
      if id in partialEvents then {partialEvents[id]} else {}
    }

    /** The complete entry a promotion of `id`'s event of type `eventType` lands on, if any. */
    function Target(id: int, eventType: string): set<CameraEvent>
      reads this`completeEvents
    {
      var key := GenerateSourceKey(id, eventType);
      if key in completeEvents then {completeEvents[key]} else {}
    }

    /** The record of the partial event of `id` once a line of kind `kind` has set its fields. */
    function Assigned(kind: LineKind, id: int, now: int): EventRecord
      reads this`partialEvents, partialEvents.Values
    {
      Assign(PartialRecord(id, now), kind)
    }

    /**
     * The objects a line of kind `kind` from camera `id` may change: the
     * camera's partial event and the complete entry its promotion would land on.
     */
    function Affected(kind: LineKind, id: int, now: int): set<CameraEvent>
      reads this`partialEvents, this`completeEvents, partialEvents.Values
    {
      PartialObject(id) + Target(id, Assigned(kind, id, now).EventType)
    }

    /** A promotion by camera `id` never lands on the partial event of another camera. */
    lemma AffectsOnlyItsCamera(id: int, eventType: string)
      requires Valid()
      ensures forall j | j in partialEvents && j != id ::
        partialEvents[j] !in PartialObject(id) && partialEvents[j] !in Target(id, eventType)
    {
      forall j | j in partialEvents && j != id
        ensures partialEvents[j] !in Target(id, eventType)
      {
        var key := GenerateSourceKey(id, eventType);
        if key in completeEvents && completeEvents[key] == partialEvents[j] {
          SourcePrefixOwnsKey(j, id, eventType);
        }
      }
    }

    /** The records of the complete table. */
    function CompleteView(): (view: map<string, EventRecord>)
      reads this`completeEvents, completeEvents.Values
      ensures view.Keys == completeEvents.Keys
      ensures forall k | k in view :: view[k] == completeEvents[k].Record()
      ensures (forall k | k in completeEvents :: HasSubscription(completeEvents[k].EventType))
              ==> ViewSubscribed(subscriptions, view)
    {
      map k | k in completeEvents :: completeEvents[k].Record()
    }

    /** The record of the complete entry under `key`, if there is one. */
    function EntryRecord(key: string): Option<EventRecord>
      reads this`completeEvents, completeEvents.Values
    {
      if key in completeEvents then Some(completeEvents[key].Record()) else Option.None
    }

    /** The record the complete entry that `Assigned(kind, id, now)` is promoted to had, if any. */
    function TargetRecord(kind: LineKind, id: int, now: int): Option<EventRecord>
      reads this`partialEvents, partialEvents.Values, this`completeEvents, completeEvents.Values
    {
      EntryRecord(CompleteEventKey(Assigned(kind, id, now), id))
    }

    /**
     * What `SaveIfComplete` makes of the partial object `p` of camera `id`,
     * whose record was `e`, given the complete table `before` and the record
     * `target` its entry under the event's key had: an incomplete event
     * changes nothing, neither the table nor the entry under its key; a new
     * key receives `p` itself, ending at `now`; an existing key's entry, which
     * may be `p` itself, counts one more occurrence and ends at `now`.
     */
    predicate Promoted(p: CameraEvent, e: EventRecord, id: int, now: int,
                       before: map<string, CameraEvent>, target: Option<EventRecord>)
      reads this`completeEvents, p, before.Values
    {
      var key := CompleteEventKey(e, id);
      var complete := IsEventComplete(e);
      && completeEvents == (if complete && key !in before then before[key := p] else before)
      && p.Record() == (if !complete then e
                        else if key !in before then e.(TimeEnd := now)
                        else if before[key] == p then Bump(e, now)
                        else e)
      && (key in before && before[key] != p ==>
            target.Some? && before[key].Record() == (if complete then Bump(target.value, now) else target.value))
    }

    /** A promotion only adds: every entry of the table before it stays, under its key. */
    lemma PromotionKeepsEntries(p: CameraEvent, e: EventRecord, id: int, now: int,
                                before: map<string, CameraEvent>, target: Option<EventRecord>)
      requires Promoted(p, e, id, now, before, target)
      ensures forall k | k in before :: k in completeEvents && completeEvents[k] == before[k]
    {
    }

    /** Which record the entry had matters only when the entry is not the promoted object itself. */
    lemma PromotedRetarget(p: CameraEvent, e: EventRecord, id: int, now: int, before: map<string, CameraEvent>,
                           target: Option<EventRecord>, target': Option<EventRecord>)
      requires Promoted(p, e, id, now, before, target)
      requires var key := CompleteEventKey(e, id); key in before && before[key] != p ==> target == target'
      ensures Promoted(p, e, id, now, before, target')
    {
    }

    /** `SaveIfComplete`: promote the partial event of `id` when it is complete. */
    method SaveIfComplete(cameraEvent: CameraEvent, id: int, now: int)
      requires Valid()
      requires id in partialEvents && partialEvents[id] == cameraEvent
      requires cameraEvent.EventType == "" || HasSubscription(cameraEvent.EventType)
      modifies this`completeEvents, cameraEvent, Target(id, cameraEvent.EventType)
      ensures Valid()
      ensures Promoted(cameraEvent, old(cameraEvent.Record()), id, now, old(completeEvents),
                       old(EntryRecord(CompleteEventKey(cameraEvent.Record(), id))))
    {
      if IsEventComplete(cameraEvent.Record()) {
        var completeEventKey := GenerateSourceKey(id, cameraEvent.EventType);
        if completeEventKey !in completeEvents {
          AddComplete(cameraEvent, id, now, completeEventKey);
        } else {
          Coalesce(completeEvents[completeEventKey], now);
        }
      }
    }

    /** A new complete key: the partial object itself is stored under it, ending at `now`. */
    method AddComplete(cameraEvent: CameraEvent, id: int, now: int, key: string)
      requires Valid()
      requires id in partialEvents && partialEvents[id] == cameraEvent && HasSubscription(cameraEvent.EventType)
      requires key == GenerateSourceKey(id, cameraEvent.EventType) && key !in completeEvents
      modifies this`completeEvents, cameraEvent
      ensures Valid()
      ensures completeEvents == old(completeEvents)[key := cameraEvent]
      ensures cameraEvent.Record() == old(cameraEvent.Record()).(TimeEnd := now)
    {
      SourceKeyHasSourcePrefix(id, cameraEvent.EventType);
      cameraEvent.TimeEnd := now;
      completeEvents := completeEvents[key := cameraEvent];
      forall k, j | k in completeEvents && j in partialEvents && completeEvents[k] == partialEvents[j]
        ensures SourcePrefix(j) <= k
      {
        if k == key {
          assert j == id;
        }
      }
    }

    /** An existing complete entry: one more occurrence (`int` wraps), ending at `now`. */
    method Coalesce(completeEvent: CameraEvent, now: int)
      requires Valid() && completeEvent in completeEvents.Values
      modifies completeEvent
      ensures Valid()
      ensures completeEvent.Record() == Bump(old(completeEvent.Record()), now)
    {
      completeEvent.Count := Wrap32(completeEvent.Count + 1);
      completeEvent.TimeEnd := now;
    }

    /** The partial event of `id`, created empty at `now` when there is none. */
    method PartialFor(id: int, now: int) returns (partialEvent: CameraEvent)
      requires Valid()
      modifies this`partialEvents
      ensures Valid()
      ensures partialEvents == old(partialEvents)[id := partialEvent]
      ensures id in old(partialEvents) ==> partialEvent == old(partialEvents)[id]
      ensures id !in old(partialEvents) ==>
        fresh(partialEvent) && partialEvent.Record() == InitialRecord(LongToIpAddress(id), now)
    {
      if id !in partialEvents {
        var cameraEvent := new CameraEvent(LongToIpAddress(id), now);
        partialEvents := partialEvents[id := cameraEvent];
      }
      partialEvent := partialEvents[id];
    }

    /** Set the type and the actions of a partial event to a subscription's. */
    method SetEventType(partialEvent: CameraEvent, eventType: string, actions: seq<EventAction>)
      requires Valid()
      requires partialEvent in partialEvents.Values && HasSubscription(eventType)
      modifies partialEvent
      ensures Valid()
      ensures partialEvent.Record() == old(partialEvent.Record()).(EventType := eventType, Actions := actions)
    {
      partialEvent.EventType := eventType;
      partialEvent.Actions := actions;
    }

    /** Set the state of a partial event. */
    method SetEventState(partialEvent: CameraEvent, eventState: int, rawEventState: string)
      requires Valid()
      modifies partialEvent
      ensures Valid()
      ensures partialEvent.Record() == old(partialEvent.Record()).(EventState := eventState, RawEventState := rawEventState)
    {
      partialEvent.EventState := eventState;
      partialEvent.RawEventState := rawEventState;
    }

    /** The field updates of a subscribed-type line or a state line on a partial event. */
    method AssignKind(partialEvent: CameraEvent, kind: LineKind)
      requires Valid()
      requires partialEvent in partialEvents.Values
      requires kind.Subscribed? || kind.State?
      requires kind.Subscribed? ==> HasSubscription(kind.eventType)
      modifies partialEvent
      ensures Valid()
      ensures partialEvent.Record() == Assign(old(partialEvent.Record()), kind)
    {
      if kind.Subscribed? {
        SetEventType(partialEvent, kind.eventType, kind.actions);
      } else {
        SetEventState(partialEvent, kind.eventState, kind.rawEventState);
      }
    }

    /** A boundary line with a partial event: `partialEvents.Remove(id)`. */
    method DropPartial(id: int, now: int)
      requires Valid() && id in partialEvents
      modifies this`partialEvents
      ensures Valid()
      ensures Handled(Boundary, id, now)
    {
      partialEvents := partialEvents - {id};
    }

    /** A line that is not recognized: the camera's partial event is created when missing, and nothing else happens. */
    method EnsurePartial(id: int, now: int)
      requires Valid()
      modifies this`partialEvents
      ensures Valid()
      ensures Handled(Unrecognized, id, now)
    {
      var _ := PartialFor(id, now);
    }

    /**
     * A sentinel or a state line: the partial event of `id` takes the line's
     * fields, then `SaveIfComplete` runs on it.
     */
    method Apply(partialEvent: CameraEvent, id: int, now: int, kind: LineKind,
                 ghost e: EventRecord, ghost before: map<string, CameraEvent>, ghost target: Option<EventRecord>)
      requires Valid()
      requires id in partialEvents && partialEvents[id] == partialEvent
      requires kind.Subscribed? || kind.State?
      requires kind.Subscribed? ==> HasSubscription(kind.eventType)
      requires e == partialEvent.Record() && before == completeEvents
      requires target == EntryRecord(CompleteEventKey(Assign(e, kind), id))
      modifies this`completeEvents, partialEvent, Target(id, Assign(e, kind).EventType)
      ensures Valid()
      ensures Promoted(partialEvent, Assign(e, kind), id, now, before, target)
      ensures forall j | j in partialEvents && j != id :: partialEvents[j].Record() == old(partialEvents[j].Record())
      ensures forall k | k in before && before[k] != partialEvent && before[k] !in old(Target(id, Assign(e, kind).EventType)) ::
        before[k].Record() == old(before[k].Record())
      ensures forall k | k in before :: k in completeEvents && completeEvents[k] == before[k]
    {
      AffectsOnlyItsCamera(id, Assign(e, kind).EventType);
      AssignKind(partialEvent, kind);
      Promote(partialEvent, id, now, Assign(e, kind), before, target);
    }

    /**
     * `SaveIfComplete` on the partial event of `id` once its fields are set to
     * `e`; `target` is the record its entry had, which matters only when that
     * entry is another object.
     */
    method Promote(partialEvent: CameraEvent, id: int, now: int,
                   ghost e: EventRecord, ghost before: map<string, CameraEvent>, ghost target: Option<EventRecord>)
      requires Valid()
      requires id in partialEvents && partialEvents[id] == partialEvent
      requires e.EventType == "" || HasSubscription(e.EventType)
      requires e == partialEvent.Record() && before == completeEvents
      requires var key := CompleteEventKey(e, id); key in before && before[key] != partialEvent ==> target == EntryRecord(key)
      modifies this`completeEvents, partialEvent, Target(id, e.EventType)
      ensures Valid()
      ensures Promoted(partialEvent, e, id, now, before, target)
      ensures forall j | j in partialEvents && j != id :: partialEvents[j].Record() == old(partialEvents[j].Record())
      ensures forall k | k in before && before[k] != partialEvent && before[k] !in old(Target(id, e.EventType)) ::
        before[k].Record() == old(before[k].Record())
      ensures forall k | k in before :: k in completeEvents && completeEvents[k] == before[k]
    {
      AffectsOnlyItsCamera(id, e.EventType);
      SourceKeyHasSourcePrefix(id, e.EventType);
      ghost var mid := EntryRecord(CompleteEventKey(e, id));
      SaveIfComplete(partialEvent, id, now);
      PromotionKeepsEntries(partialEvent, e, id, now, before, mid);
      PromotedRetarget(partialEvent, e, id, now, before, mid, target);
    }

    /** Every object of `objs` holds the fields it held before. */
    twostate predicate RecordsKept(objs: set<CameraEvent>)
      reads objs
    {
      forall c | c in objs :: c.Record() == old(c.Record())
    }

    /**
     * What a line of kind `kind` from camera `id` at `now` does, from the
     * state before it to the state after it. Only the camera's partial event
     * and the complete entry its promotion lands on may change: the other
     * cameras' partial events are the same objects with the same contents,
     * and every complete entry stays under its key. A blank line changes
     * nothing; a boundary, when there is a partial event, only drops it; an
     * unrecognized line only creates the partial event when it is missing.
     * None of these changes the fields of any event. Any other line leaves
     * the camera with a partial event, the old one or a
     * fresh one, which takes the line's fields and is then promoted as
     * `SaveIfComplete` does.
     */
    twostate predicate Handled(kind: LineKind, id: int, now: int)
      reads *
    {
      && (forall j | j in old(partialEvents) && j != id ::
            j in partialEvents && partialEvents[j] == old(partialEvents)[j]
            && partialEvents[j].Record() == old(partialEvents[j].Record()))
      && (forall j | j in partialEvents && j != id :: j in old(partialEvents))
      && (forall k | k in old(completeEvents) :: k in completeEvents && completeEvents[k] == old(completeEvents)[k])
      && (forall k | k in old(completeEvents) && old(completeEvents)[k] !in old(Affected(kind, id, now)) ::
            completeEvents[k].Record() == old(completeEvents[k].Record()))
      && (kind.Blank? || kind.Boundary? || kind.Unrecognized? ==> RecordsKept(old(Affected(kind, id, now))))
      && match kind
         case Blank =>
           && partialEvents == old(partialEvents) && completeEvents == old(completeEvents)
         case Boundary =>
           && partialEvents == old(partialEvents) - {id} && completeEvents == old(completeEvents)
         case Unrecognized =>
           && id in partialEvents
           && (id in old(partialEvents) ==> partialEvents[id] == old(partialEvents)[id])
           && (id !in old(partialEvents) ==> fresh(partialEvents[id]))
           && completeEvents == old(completeEvents) && partialEvents[id].Record() == old(PartialRecord(id, now))
         case _ =>
           && id in partialEvents
           && (id in old(partialEvents) ==> partialEvents[id] == old(partialEvents)[id])
           && (id !in old(partialEvents) ==> fresh(partialEvents[id]))
           && Promoted(partialEvents[id], old(Assigned(kind, id, now)), id, now,
                       old(completeEvents), old(TargetRecord(kind, id, now)))
    }

    /**
     * `Process`: feed one line received from camera `id` at time `now`. The
     * line's kind is decided by `Classify`, in the order of the tests of
     * `Process`; its effect is `Handle`'s.
     */
    method Process(line: Option<string>, id: int, now: int)
      requires Configured() && Valid()
      modifies this`partialEvents, this`completeEvents, Affected(Classify(line, id in partialEvents), id, now)
      ensures Valid()
      ensures Handled(Classify(line, id in old(partialEvents)), id, now)
    {
      var kind := Classify(line, id in partialEvents);
      Handle(kind, id, now);
    }

    /** The effect on the state of a line of kind `kind` from camera `id`. */
    method Handle(kind: LineKind, id: int, now: int)
      requires Valid()
      requires kind == Boundary ==> id in partialEvents
      requires kind.Subscribed? ==> HasSubscription(kind.eventType)
      modifies this`partialEvents, this`completeEvents, Affected(kind, id, now)
      ensures Valid()
      ensures Handled(kind, id, now)
    {
      if kind == Blank {
        return;
      }
      if kind == Boundary {
        DropPartial(id, now);
        return;
      }
      if kind == Unrecognized {
        EnsurePartial(id, now);
        return;
      }
      Feed(kind, id, now);
    }

    /**
     * A sentinel or a state line: the camera's partial event, created when
     * missing, takes the line's fields and `SaveIfComplete` runs on it.
     */
    method Feed(kind: LineKind, id: int, now: int)
      requires Valid()
      requires kind.Subscribed? || kind.State?
      requires kind.Subscribed? ==> HasSubscription(kind.eventType)
      modifies this`partialEvents, this`completeEvents, Affected(kind, id, now)
      ensures Valid()
      ensures Handled(kind, id, now)
    {
      if id in partialEvents {
        FeedPartial(kind, id, now);
      } else {
        FeedNew(kind, id, now);
      }
    }

    /** A type or state line for a camera that has a partial event: that event takes the line. */
    method FeedPartial(kind: LineKind, id: int, now: int)
      requires Valid() && id in partialEvents
      requires kind.Subscribed? || kind.State?
      requires kind.Subscribed? ==> HasSubscription(kind.eventType)
      modifies this`partialEvents, this`completeEvents, Affected(kind, id, now)
      ensures Valid()
      ensures Handled(kind, id, now)
    {
      ghost var e0, before, target := PartialRecord(id, now), completeEvents, TargetRecord(kind, id, now);
      var partialEvent := partialEvents[id];
      Apply(partialEvent, id, now, kind, e0, before, target);
    }

    /** A type or state line for a camera without a partial event: a new one is created and takes the line. */
    method FeedNew(kind: LineKind, id: int, now: int)
      requires Valid() && id !in partialEvents
      requires kind.Subscribed? || kind.State?
      requires kind.Subscribed? ==> HasSubscription(kind.eventType)
      modifies this`partialEvents, this`completeEvents, Affected(kind, id, now)
      ensures Valid()
      ensures Handled(kind, id, now)
    {
      ghost var e0, before, target := PartialRecord(id, now), completeEvents, TargetRecord(kind, id, now);
      ghost var affected := Affected(kind, id, now);
      var partialEvent := PartialFor(id, now);
      assert partialEvent.Record() == e0;
      assert affected <= {partialEvent} + Target(id, Assign(e0, kind).EventType);
      ghost var mid := partialEvents;
      Apply(partialEvent, id, now, kind, e0, before, target);
      assert partialEvents == mid;
    }

    /**
     * The `foreach` over an evicted event's actions: each action is recorded
     * in order; `Store` goes to the database sink and `Email` to the notifier.
     */
    method RunActions(cmd: CameraEvent, now: int)
      modifies this`dispatched, emailHelper
      ensures dispatched == old(dispatched) + ActionsTrace(cmd.Record())
      ensures (emailHelper.lastSent, emailHelper.outbox)
           == NotifyAll(old(emailHelper.lastSent), emailHelper.maxFrequency, old(emailHelper.outbox),
                        EmailRecords(ActionsTrace(cmd.Record())), now)
    {
      ghost var rec := cmd.Record();
      ghost var entry := ActionsTrace(rec);
      ghost var lastSent0, outbox0 := emailHelper.lastSent, emailHelper.outbox;
      var j := 0;
      while j < |cmd.Actions|
        invariant 0 <= j <= |cmd.Actions| == |entry|
        invariant cmd.Record() == rec
        invariant dispatched == old(dispatched) + entry[..j]
        invariant emailHelper.lastSent == NotifyAll(lastSent0, emailHelper.maxFrequency, outbox0, EmailRecords(entry[..j]), now).0
        invariant emailHelper.outbox == NotifyAll(lastSent0, emailHelper.maxFrequency, outbox0, EmailRecords(entry[..j]), now).1
      {
        var a := cmd.Actions[j];
        NotifyStep(lastSent0, emailHelper.maxFrequency, outbox0, entry, j, now);
        RunAction(cmd, a, now);
        j := j + 1;
      }
      assert entry[..j] == entry;
    }

    /** One action of an evicted event: recorded, and an `Email` goes through the notifier. */
    method RunAction(cmd: CameraEvent, a: EventAction, now: int)
      modifies this`dispatched, emailHelper
      ensures dispatched == old(dispatched) + [(a, cmd.Record())]
      ensures a == Email ==>
        (emailHelper.lastSent, emailHelper.outbox)
        == Notify(old(emailHelper.lastSent), emailHelper.maxFrequency, old(emailHelper.outbox), cmd.Record(), now)
      ensures a != Email ==> emailHelper.lastSent == old(emailHelper.lastSent) && emailHelper.outbox == old(emailHelper.outbox)
    {
      dispatched := dispatched + [(a, cmd.Record())];
      if a == Email {
        var _ := emailHelper.Send(cmd, now);
      } else if a == Store {
        // `StoreEvent`: the database is a sink outside the model
      } else {
        // the `default` branch only logs
      }
    }

    /**
     * `ProcessEvents`: the sweep at time `now`, visiting the complete table in
     * the returned key order. Entries that should not be reported are removed
     * whatever their age; reported entries quiet for longer than the timeout
     * (strictly) are removed and then run their actions; the rest stay.
     */
    method ProcessEvents(now: int) returns (order: seq<string>)
      requires Valid()
      modifies this`completeEvents, this`dispatched, emailHelper
      ensures Valid()
      ensures Distinct(order) && forall k :: k in order <==> k in old(completeEvents)
      ensures forall i | 0 <= i < |order| :: order[i] in old(CompleteView())
      ensures partialEvents == old(partialEvents)
      ensures completeEvents == map k | k in old(completeEvents)
                                && !Evicted(subscriptions, old(CompleteView())[k], now, eventsTimeOut)
                                :: old(completeEvents)[k]
      ensures forall k | k in completeEvents :: completeEvents[k].Record() == old(completeEvents[k].Record())
      ensures dispatched == old(dispatched) + SweepTrace(subscriptions, old(CompleteView()), order, now, eventsTimeOut)
      ensures (emailHelper.lastSent, emailHelper.outbox)
           == SweepMail(old(emailHelper.lastSent), emailHelper.maxFrequency, old(emailHelper.outbox),
                        subscriptions, old(CompleteView()), order, now, eventsTimeOut)
    {
      ghost var view := CompleteView();
      ghost var table := completeEvents;
      ghost var trace0 := dispatched;
      ghost var lastSent0, outbox0 := emailHelper.lastSent, emailHelper.outbox;
      order := KeysInSomeOrder(completeEvents.Keys);
      KeptNone(subscriptions, table, view, now, eventsTimeOut);
      SweepKeys(order, now, view, table, trace0, lastSent0, outbox0);
      KeptAll(subscriptions, table, view, order, now, eventsTimeOut);
    }

    /** The loop of `ProcessEvents`, visiting the keys in `order`. */
    method SweepKeys(order: seq<string>, now: int, ghost view: map<string, EventRecord>, ghost table: map<string, CameraEvent>,
                     ghost trace0: seq<(EventAction, EventRecord)>,
                     ghost lastSent0: map<string, int>, ghost outbox0: seq<EventRecord>)
      requires Valid()
      requires table.Keys == view.Keys
      requires forall k | k in table :: table[k].Record() == view[k]
      requires Distinct(order) && forall j | 0 <= j < |order| :: order[j] in view
      requires SweptThrough(view, table, [], now, trace0, lastSent0, outbox0)
      modifies this`completeEvents, this`dispatched, emailHelper
      ensures Valid()
      ensures SweptThrough(view, table, order, now, trace0, lastSent0, outbox0)
    {
      var i := 0;
      assert order[..0] == [];
      while i < |order|
        invariant 0 <= i <= |order|
        invariant Valid()
        invariant forall k | k in table :: table[k].Record() == view[k]
        invariant SweptThrough(view, table, order[..i], now, trace0, lastSent0, outbox0)
      {
        SweepNext(order, i, now, view, table, trace0, lastSent0, outbox0);
        i := i + 1;
      }
      assert order[..i] == order;
    }

    /** The visit of `order[i]` extends the sweep from the keys before it to the keys up to it. */
    method SweepNext(order: seq<string>, i: int, now: int, ghost view: map<string, EventRecord>,
                     ghost table: map<string, CameraEvent>, ghost trace0: seq<(EventAction, EventRecord)>,
                     ghost lastSent0: map<string, int>, ghost outbox0: seq<EventRecord>)
      requires Valid()
      requires table.Keys == view.Keys
      requires forall k | k in table :: table[k].Record() == view[k]
      requires Distinct(order) && forall j | 0 <= j < |order| :: order[j] in view
      requires 0 <= i < |order|
      requires SweptThrough(view, table, order[..i], now, trace0, lastSent0, outbox0)
      modifies this`completeEvents, this`dispatched, emailHelper
      ensures Valid()
      ensures SweptThrough(view, table, order[..i + 1], now, trace0, lastSent0, outbox0)
    {
      var id := order[i];
      KeptStep(subscriptions, table, view, order[..i], id, now, eventsTimeOut);
      ghost var trace, lastSent, outbox := dispatched, emailHelper.lastSent, emailHelper.outbox;
      SweepEntry(id, now, view[id]);
      KeptAdvance(subscriptions, table, view, order, i, now, eventsTimeOut);
      TraceAdvance(subscriptions, view, order, i, now, eventsTimeOut, trace0, trace, dispatched);
      MailAdvance(lastSent0, emailHelper.maxFrequency, outbox0, subscriptions, view, order, i, now, eventsTimeOut,
                  lastSent, outbox, emailHelper.lastSent, emailHelper.outbox);
    }

    /**
     * The state of the sweep once the keys in `done` have been visited: the
     * entries left, the actions run and the notifier's state.
     */
    ghost predicate SweptThrough(view: map<string, EventRecord>, table: map<string, CameraEvent>, done: seq<string>,
                                 now: int, trace0: seq<(EventAction, EventRecord)>,
                                 lastSent0: map<string, int>, outbox0: seq<EventRecord>)
      reads this`completeEvents, this`dispatched, emailHelper`lastSent, emailHelper`outbox
    {
      && completeEvents == Kept(subscriptions, table, view, done, now, eventsTimeOut)
      && dispatched == trace0 + SweepTrace(subscriptions, view, done, now, eventsTimeOut)
      && (emailHelper.lastSent, emailHelper.outbox)
         == SweepMail(lastSent0, emailHelper.maxFrequency, outbox0, subscriptions, view, done, now, eventsTimeOut)
    }

    /**
     * One turn of the sweep's loop, for the key `id`: an entry that should not
     * be reported is removed; a reported one quiet for longer than the timeout
     * is removed and runs its actions; any other entry stays.
     */
    method SweepEntry(id: string, now: int, ghost e: EventRecord)
      requires Valid() && id in completeEvents && completeEvents[id].Record() == e
      modifies this`completeEvents, this`dispatched, emailHelper
      ensures Valid()
      ensures HasSubscription(e.EventType)
      ensures completeEvents == (if Evicted(subscriptions, e, now, eventsTimeOut) then old(completeEvents) - {id}
                                 else old(completeEvents))
      ensures dispatched == old(dispatched) + EntryTrace(subscriptions, e, now, eventsTimeOut)
      ensures (emailHelper.lastSent, emailHelper.outbox)
           == NotifyAll(old(emailHelper.lastSent), emailHelper.maxFrequency, old(emailHelper.outbox),
                        EmailRecords(EntryTrace(subscriptions, e, now, eventsTimeOut)), now)
    {
      var cmd := completeEvents[id];
      if !ShouldBeReported(subscriptions, cmd.Record()) {
        RemoveComplete(id);
      } else if now - cmd.TimeEnd > eventsTimeOut {
        RemoveComplete(id);
        RunActions(cmd, now);
      }
    }

    /** `completeEvents.Remove(key)`: the table loses one key and stays valid. */
    method RemoveComplete(key: string)
      requires Valid()
      modifies this`completeEvents
      ensures Valid()
      ensures completeEvents == old(completeEvents) - {key}
    {
      completeEvents := completeEvents - {key};
    }
  }
}
