/**
 * The e-mail notifier: a per-camera, per-event-type rate limiter in front of
 * the SMTP client. The message text and the SMTP session are outside the
 * model; a message handed to SMTP is recorded in `outbox`.
 */
module EmailHelper {
  import opened Utils
  import opened SqlHelper

  /** `MAX_FREQUENCY`: the floor of the notification interval, one minute in milliseconds. */
  const MaxFrequency: int := 60 * 1000

  /** The interval the constructor keeps: the configured one, raised to one minute. */
  function EffectiveFrequency(configured: int): (r: int)
    ensures r >= MaxFrequency
    ensures r == configured || r == MaxFrequency
    ensures configured >= MaxFrequency ==> r == configured
  {
    if configured < MaxFrequency then MaxFrequency else configured
  }

  /** The rate-limiter key of an event: its camera address and its type. */
  function NotificationKey(e: EventRecord): string {
    GenerateKey(e.IpAddress, e.EventType)
  }

  /**
   * The answer of `CanSendEmailNotification` as written: a key seen for the
   * first time passes, and a key seen before passes when its previous check
   * was LESS than `frequency` ago.
   */
  predicate Allows(lastSent: map<string, int>, frequency: int, key: string, now: int) {
    key !in lastSent || now - lastSent[key] < frequency
  }

  /** One notification attempt for `e` at `now`: the new `_lastSent` and outbox. */
  function Notify(lastSent: map<string, int>, frequency: int, outbox: seq<EventRecord>, e: EventRecord, now: int)
    : (map<string, int>, seq<EventRecord>)
  {
    var key := NotificationKey(e);
    (lastSent[key := now], if Allows(lastSent, frequency, key, now) then outbox + [e] else outbox)
  }

  /**
   * An attempt records `now` under the event's key whatever the answer,
   * keeps every other key's time, and adds `e` to the outbox exactly when the
   * limiter allows it.
   */
  lemma NotifyEffect(lastSent: map<string, int>, frequency: int, outbox: seq<EventRecord>, e: EventRecord, now: int)
    ensures var (l, o) := Notify(lastSent, frequency, outbox, e, now);
      && l.Keys == lastSent.Keys + {NotificationKey(e)} && l[NotificationKey(e)] == now
      && (forall k | k in lastSent && k != NotificationKey(e) :: l[k] == lastSent[k])
      && (o == outbox || o == outbox + [e])
      && (|o| == |outbox| + 1 <==> Allows(lastSent, frequency, NotificationKey(e), now))
  {
  }

  /** Attempts for `records`, in order, all at `now`. */
  function NotifyAll(lastSent: map<string, int>, frequency: int, outbox: seq<EventRecord>, records: seq<EventRecord>, now: int)
    : (map<string, int>, seq<EventRecord>)
  {
    if |records| == 0 then (lastSent, outbox)
    else
      var (l, o) := NotifyAll(lastSent, frequency, outbox, records[..|records| - 1], now);
      Notify(l, frequency, o, records[|records| - 1], now)
  }

  /** One more record is one more attempt, from the state the others leave. */
  lemma NotifyAllSnoc(lastSent: map<string, int>, frequency: int, outbox: seq<EventRecord>,
                      records: seq<EventRecord>, e: EventRecord, now: int)
    ensures NotifyAll(lastSent, frequency, outbox, records + [e], now)
         == Notify(NotifyAll(lastSent, frequency, outbox, records, now).0, frequency,
                   NotifyAll(lastSent, frequency, outbox, records, now).1, e, now)
  {
    assert (records + [e])[..|records|] == records;
  }

  class EmailHelper {
    const maxFrequency: int
    var lastSent: map<string, int>
    var outbox: seq<EventRecord>

    /** `_maxFrequency` is the configured interval floored at `MAX_FREQUENCY`. */
    constructor(configuredFrequency: int)
      ensures maxFrequency == EffectiveFrequency(configuredFrequency)
      ensures lastSent == map[] && outbox == []
    {
      maxFrequency := if configuredFrequency < MaxFrequency then MaxFrequency else configuredFrequency;
      lastSent := map[];
      outbox := [];
    }

    /**
     * `CanSendEmailNotification` at `now`: every check records `now` under the
     * event's key, whatever its answer, and leaves the other keys alone.
     */
    method CanSendEmailNotification(cameraEvent: CameraEvent, now: int) returns (allowed: bool)
      modifies this`lastSent
      ensures allowed == Allows(old(lastSent), maxFrequency, NotificationKey(cameraEvent.Record()), now)
      ensures lastSent == old(lastSent)[NotificationKey(cameraEvent.Record()) := now]
    {
      var key := GenerateKey(cameraEvent.IpAddress, cameraEvent.EventType);
      if key in lastSent {
        var expired := now - lastSent[key] < maxFrequency;
        lastSent := lastSent[key := now];
        return expired;
      }
      lastSent := lastSent[key := now];
      return true;
    }

    /** `Send`: a message leaves only when the rate limiter lets it. */
    method Send(cameraEvent: CameraEvent, now: int) returns (sent: bool)
      modifies this
      ensures sent == Allows(old(lastSent), maxFrequency, NotificationKey(cameraEvent.Record()), now)
      ensures (lastSent, outbox) == Notify(old(lastSent), maxFrequency, old(outbox), cameraEvent.Record(), now)
    {
      sent := CanSendEmailNotification(cameraEvent, now);
      if !sent {
        return;
      }
      outbox := outbox + [cameraEvent.Record()];
    }
  }

  // ---------------------------------------------------------------------------
  // What the limiter does over time

  /** The answers to checks of one key at the instants `times`, starting from `lastSent`. */
  function Answers(lastSent: map<string, int>, frequency: int, key: string, times: seq<int>): (r: seq<bool>)
    ensures |r| == |times|
    decreases |times|
  {
    if |times| == 0 then []
    else [Allows(lastSent, frequency, key, times[0])] + Answers(lastSent[key := times[0]], frequency, key, times[1..])
  }

  /** Each instant comes at least `frequency` after the one before. */
  predicate SpacedAtLeast(times: seq<int>, frequency: int) {
    forall i | 0 < i < |times| :: times[i] - times[i - 1] >= frequency
  }

  /** Each instant comes less than `frequency` after the one before. */
  predicate SpacedLessThan(times: seq<int>, frequency: int) {
    forall i | 0 < i < |times| :: times[i] - times[i - 1] < frequency
  }

  /**
   * As written, a camera that raises the same event at most once per interval
   * is notified once and never again: every later check is refused.
   */
  lemma {:induction false} QuietRepeatsAreRefused(lastSent: map<string, int>, frequency: int, key: string, times: seq<int>)
    requires |times| > 0 && SpacedAtLeast(times, frequency)
    ensures forall i | 0 < i < |times| :: !Answers(lastSent, frequency, key, times)[i]
    decreases |times|
  {
    if |times| > 1 {
      var rest := times[1..];
      assert SpacedAtLeast(rest, frequency) by {
        forall i | 0 < i < |rest| ensures rest[i] - rest[i - 1] >= frequency {
          assert rest[i] == times[i + 1] && rest[i - 1] == times[i];
        }
      }
      QuietRepeatsAreRefused(lastSent[key := times[0]], frequency, key, rest);
      var tail := Answers(lastSent[key := times[0]], frequency, key, rest);
      assert !tail[0] by {
        assert rest[0] - times[0] >= frequency;
      }
      forall i | 0 < i < |times| ensures !Answers(lastSent, frequency, key, times)[i] {
        assert Answers(lastSent, frequency, key, times)[i] == tail[i - 1];
      }
    }
  }

  /** As written, a burst of checks each less than an interval apart is let through every time. */
  lemma {:induction false} BurstsAreAllowed(lastSent: map<string, int>, frequency: int, key: string, times: seq<int>)
    requires SpacedLessThan(times, frequency)
    requires |times| > 0 ==> Allows(lastSent, frequency, key, times[0])
    ensures forall i | 0 <= i < |times| :: Answers(lastSent, frequency, key, times)[i]
    decreases |times|
  {
    if |times| > 0 {
      var rest := times[1..];
      assert SpacedLessThan(rest, frequency) by {
        forall i | 0 < i < |rest| ensures rest[i] - rest[i - 1] < frequency {
          assert rest[i] == times[i + 1] && rest[i - 1] == times[i];
        }
      }
      if |rest| > 0 {
        assert rest[0] - times[0] < frequency;
      }
      BurstsAreAllowed(lastSent[key := times[0]], frequency, key, rest);
      var tail := Answers(lastSent[key := times[0]], frequency, key, rest);
      forall i | 0 < i < |times| ensures Answers(lastSent, frequency, key, times)[i] {
        assert Answers(lastSent, frequency, key, times)[i] == tail[i - 1];
      }
    }
  }

  /** A check of one key neither reads nor changes the state of another key. */
  lemma NotifyOtherKeys(lastSent: map<string, int>, frequency: int, outbox: seq<EventRecord>, e: EventRecord, now: int, other: string)
    requires other != NotificationKey(e)
    ensures var (l, _) := Notify(lastSent, frequency, outbox, e, now);
      (other in l <==> other in lastSent) && (other in lastSent ==> l[other] == lastSent[other])
  {
  }

  /** Attempts for two runs of records in a row: the second run starts from the state the first leaves. */
  lemma {:induction false} NotifyAllConcat(lastSent: map<string, int>, frequency: int, outbox: seq<EventRecord>,
                                           a: seq<EventRecord>, b: seq<EventRecord>, now: int)
    ensures var (l, o) := NotifyAll(lastSent, frequency, outbox, a, now);
      NotifyAll(lastSent, frequency, outbox, a + b, now) == NotifyAll(l, frequency, o, b, now)
    decreases |b|
  {
    if |b| == 0 {
      assert a + b == a;
    } else {
      var b' := b[..|b| - 1];
      assert (a + b)[..|a + b| - 1] == a + b';
      NotifyAllConcat(lastSent, frequency, outbox, a, b', now);
    }
  }

  /** The outbox only grows, by the records that were let through, in order. */
  lemma {:induction false} NotifyAllOutbox(lastSent: map<string, int>, frequency: int, outbox: seq<EventRecord>, records: seq<EventRecord>, now: int)
    ensures var (l, o) := NotifyAll(lastSent, frequency, outbox, records, now);
      && outbox <= o
      && |o| - |outbox| <= |records|
      && (forall i | |outbox| <= i < |o| :: o[i] in records)
      && (forall i | 0 <= i < |records| :: NotificationKey(records[i]) in l && l[NotificationKey(records[i])] == now)
  {
    if |records| > 0 {
      var init := records[..|records| - 1];
      var last := records[|records| - 1];
      NotifyAllOutbox(lastSent, frequency, outbox, init, now);
      var prev := NotifyAll(lastSent, frequency, outbox, init, now);
      var next := NotifyAll(lastSent, frequency, outbox, records, now);
      assert next == Notify(prev.0, frequency, prev.1, last, now);
      assert next.0 == prev.0[NotificationKey(last) := now];
      assert next.1 == prev.1 || next.1 == prev.1 + [last];
      forall i | |outbox| <= i < |next.1| ensures next.1[i] in records {
        if i < |prev.1| {
          assert next.1[i] == prev.1[i] && prev.1[i] in init;
        } else {
          assert next.1[i] == last;
        }
      }
      forall i | 0 <= i < |records| ensures NotificationKey(records[i]) in next.0 && next.0[NotificationKey(records[i])] == now {
        if i < |init| {
          assert records[i] == init[i];
        }
      }
    }
  }
}
