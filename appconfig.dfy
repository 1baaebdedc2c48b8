/**
 * Configuration: the subscription records read from the application settings,
 * their validation into `SubscriptionEventsConfig`, the two numeric settings
 * and the automation command table. Reading the settings and decoding their
 * JSON are outside the model; the decoded records are the inputs here.
 */
module AppConfig {
  import opened Wrappers
  import opened Text
  import opened Utils

  datatype EventAction = None | Store | Email

  /** A subscription as decoded from JSON; a missing field is `Option.None`. */
  datatype SubscriptionEvents = SubscriptionEvents(
    Event: Option<string>, Filter: Option<string>, Ignore: Option<string>, Actions: Option<string>)

  /** A validated subscription. */
  datatype SubscriptionEventsConfig = SubscriptionEventsConfig(
    Event: string, FilterList: seq<string>, IgnoreList: seq<string>, Actions: seq<EventAction>)

  datatype AutomationCommand = AutomationCommand(Device: string, Event: string, Item: string, Command: string)

  /** `Enum.TryParse<EventAction>` on the exact names of the members. */
  function ParseAction(s: string): (r: Option<EventAction>)
    ensures r == Some(EventAction.None) <==> s == "None"
    ensures r == Some(Store) <==> s == "Store"
    ensures r == Some(Email) <==> s == "Email"
  {
    if s == "None" then Some(EventAction.None)
    else if s == "Store" then Some(Store)
    else if s == "Email" then Some(Email)
    else Option.None
  }

  /** The action a piece contributes: one that parses and is not `None`. */
  function PieceAction(piece: string): seq<EventAction> {
    var a := ParseAction(piece);
    if a.Some? && a.value != EventAction.None then [a.value] else []
  }

  /** The actions of the pieces in order, skipping pieces that do not name one. */
  function ValidActions(pieces: seq<string>): seq<EventAction> {
    if |pieces| == 0 then [] else ValidActions(pieces[..|pieces| - 1]) + PieceAction(pieces[|pieces| - 1])
  }

  /** The list a comma-separated setting gives: empty when blank, else the untrimmed pieces. */
  function ListOf(setting: Option<string>): seq<string> {
    if IsNullOrWhiteSpace(setting) then [] else Split(setting.value, ',')
  }

  /** What `SubscriptionEvents.CreateEventsConfig` returns; `Option.None` stands for null. */
  function EventsConfigOf(s: SubscriptionEvents): Option<SubscriptionEventsConfig> {
    if IsNullOrWhiteSpace(s.Event) || IsNullOrWhiteSpace(s.Actions) then Option.None
    else
      var actions := ValidActions(Split(s.Actions.value, ','));
      if |actions| == 0 then Option.None
      else Some(SubscriptionEventsConfig(s.Event.value, ListOf(s.Filter), ListOf(s.Ignore), actions))
  }

  /** `SubscriptionEvents.CreateEventsConfig`: validates one subscription. */
  method CreateEventsConfig(s: SubscriptionEvents) returns (r: Option<SubscriptionEventsConfig>)
    ensures r == EventsConfigOf(s)
  {
    if IsNullOrWhiteSpace(s.Event) {
      return Option.None;
    }
    if IsNullOrWhiteSpace(s.Actions) {
      return Option.None;
    }
    var actionListRaw := Split(s.Actions.value, ',');
    var actionList: seq<EventAction> := [];
    var i := 0;
    while i < |actionListRaw|
      invariant 0 <= i <= |actionListRaw|
      invariant actionList == ValidActions(actionListRaw[..i])
    {
      var a := actionListRaw[i];
      var action := ParseAction(a);
      if action.Some? && action.value != EventAction.None {
        actionList := actionList + [action.value];
      }
      assert actionListRaw[..i + 1][..i] == actionListRaw[..i];
      i := i + 1;
    }
    assert actionListRaw[..i] == actionListRaw;
    if |actionList| == 0 {
      return Option.None;
    }
    var filterList: seq<string> := [];
    var ignoreList: seq<string> := [];
    if !IsNullOrWhiteSpace(s.Filter) {
      filterList := Split(s.Filter.value, ',');
    }
    if !IsNullOrWhiteSpace(s.Ignore) {
      ignoreList := Split(s.Ignore.value, ',');
    }
    r := Some(SubscriptionEventsConfig(s.Event.value, filterList, ignoreList, actionList));
  }

  // ---------------------------------------------------------------------------
  // Properties of validation

  /** Valid actions of a concatenation are the concatenation: order and duplicates are kept. */
  lemma {:induction false} ValidActionsConcat(p: seq<string>, q: seq<string>)
    ensures ValidActions(p + q) == ValidActions(p) + ValidActions(q)
  {
    if |q| > 0 {
      var q' := q[..|q| - 1];
      var last := q[|q| - 1];
      assert (p + q)[..|p + q| - 1] == p + q' && (p + q)[|p + q| - 1] == last;
      assert ValidActions(p + q) == ValidActions(p + q') + PieceAction(last);
      ValidActionsConcat(p, q');
      assert ValidActions(q) == ValidActions(q') + PieceAction(last);
      assert ValidActions(p) + ValidActions(q') + PieceAction(last) == ValidActions(p) + (ValidActions(q') + PieceAction(last));
    } else {
      assert p + q == p;
    }
  }

  /** An action is kept exactly when some piece names it and it is not `None`. */
  lemma {:induction false} ValidActionsMembers(pieces: seq<string>, a: EventAction)
    ensures a in ValidActions(pieces)
        <==> a != EventAction.None && exists i | 0 <= i < |pieces| :: ParseAction(pieces[i]) == Some(a)
  {
    if |pieces| > 0 {
      var init := pieces[..|pieces| - 1];
      ValidActionsMembers(init, a);
      if a in ValidActions(pieces) && a !in ValidActions(init) {
        assert ParseAction(pieces[|pieces| - 1]) == Some(a);
      }
      if a != EventAction.None {
        if i :| 0 <= i < |pieces| && ParseAction(pieces[i]) == Some(a) {
          if i < |pieces| - 1 {
            assert init[i] == pieces[i];
          }
        }
      }
    }
  }

  /** No comma-separated piece of `actions` names an action other than `None`. */
  predicate NamesNoAction(actions: string) {
    var pieces := Split(actions, ',');
    forall i | 0 <= i < |pieces| :: PieceAction(pieces[i]) == []
  }

  /** Pieces none of which contributes an action keep no action. */
  lemma {:induction false} ValidActionsNone(pieces: seq<string>)
    requires forall i | 0 <= i < |pieces| :: PieceAction(pieces[i]) == []
    ensures ValidActions(pieces) == []
  {
    if |pieces| > 0 {
      var init := pieces[..|pieces| - 1];
      forall i | 0 <= i < |init| ensures PieceAction(init[i]) == [] {
        assert init[i] == pieces[i];
      }
      ValidActionsNone(init);
      assert PieceAction(pieces[|pieces| - 1]) == [];
    }
  }

  /** A piece that contributes an action makes the kept actions non-empty. */
  lemma {:induction false} ValidActionsSome(pieces: seq<string>, i: int)
    requires 0 <= i < |pieces| && PieceAction(pieces[i]) != []
    ensures |ValidActions(pieces)| > 0
  {
    var init := pieces[..|pieces| - 1];
    var tail := PieceAction(pieces[|pieces| - 1]);
    assert ValidActions(pieces) == ValidActions(init) + tail;
    if i < |init| {
      assert init[i] == pieces[i];
      ValidActionsSome(init, i);
    } else {
      assert |tail| > 0;
    }
  }

  /** No action is kept exactly when no piece contributes one. */
  lemma ValidActionsEmpty(pieces: seq<string>)
    ensures ValidActions(pieces) == [] <==> forall i | 0 <= i < |pieces| :: PieceAction(pieces[i]) == []
  {
    if forall i | 0 <= i < |pieces| :: PieceAction(pieces[i]) == [] {
      ValidActionsNone(pieces);
    } else {
      var i :| 0 <= i < |pieces| && PieceAction(pieces[i]) != [];
      ValidActionsSome(pieces, i);
    }
  }

  /**
   * A subscription is refused exactly when its event or its actions are blank
   * or no piece names an action; an accepted one keeps the event name, has at
   * least one action and never `None`.
   */
  lemma CreateEventsConfigOutcome(s: SubscriptionEvents)
    ensures EventsConfigOf(s).None? <==>
      IsNullOrWhiteSpace(s.Event) || IsNullOrWhiteSpace(s.Actions)
      || NamesNoAction(s.Actions.value)
    ensures EventsConfigOf(s).Some? ==>
      var c := EventsConfigOf(s).value;
      && c.Event == s.Event.value
      && |c.Actions| > 0
      && EventAction.None !in c.Actions
      && c.Actions == ValidActions(Split(s.Actions.value, ','))
  {
    if !IsNullOrWhiteSpace(s.Event) && !IsNullOrWhiteSpace(s.Actions) {
      var pieces := Split(s.Actions.value, ',');
      ValidActionsMembers(pieces, EventAction.None);
      ValidActionsEmpty(pieces);
    }
  }

  /** Filter and ignore settings, joined back with ',', are the settings as written. */
  lemma ListOfJoins(setting: Option<string>)
    requires !IsNullOrWhiteSpace(setting)
    ensures Join(ListOf(setting), ',') == setting.value
    ensures forall i | 0 <= i < |ListOf(setting)| :: ',' !in ListOf(setting)[i]
  {
    JoinSplit(setting.value, ',');
    SplitPiecesHaveNoSeparator(setting.value, ',');
  }

  // ---------------------------------------------------------------------------
  // GetSubscriptionEventsConfig (GetSubscriptinoEventsConfig in the source)

  /** `Select(CreateEventsConfig).Where(e != null)`. */
  function NonNullConfigs(subscriptions: seq<SubscriptionEvents>): seq<SubscriptionEventsConfig> {
    if |subscriptions| == 0 then []
    else
      var init := NonNullConfigs(subscriptions[..|subscriptions| - 1]);
      match EventsConfigOf(subscriptions[|subscriptions| - 1])
      case Some(c) => init + [c]
      case None => init
  }

  /** The validated subscriptions, or null when none is valid. */
  function GetSubscriptionEventsConfig(subscriptions: seq<SubscriptionEvents>): Option<seq<SubscriptionEventsConfig>> {
    var configs := NonNullConfigs(subscriptions);
    if |configs| == 0 then Option.None else Some(configs)
  }

  /** A config is kept exactly when it is the validation of some subscription. */
  lemma {:induction false} NonNullConfigsMembers(subscriptions: seq<SubscriptionEvents>, c: SubscriptionEventsConfig)
    ensures c in NonNullConfigs(subscriptions)
        <==> exists i | 0 <= i < |subscriptions| :: EventsConfigOf(subscriptions[i]) == Some(c)
  {
    if |subscriptions| > 0 {
      var init := subscriptions[..|subscriptions| - 1];
      NonNullConfigsMembers(init, c);
      if i :| 0 <= i < |subscriptions| && EventsConfigOf(subscriptions[i]) == Some(c) {
        if i < |subscriptions| - 1 {
          assert init[i] == subscriptions[i];
        }
      }
    }
  }

  /** Null is returned exactly when every subscription is refused; otherwise every valid one is there. */
  lemma GetSubscriptionEventsConfigOutcome(subscriptions: seq<SubscriptionEvents>)
    ensures GetSubscriptionEventsConfig(subscriptions).None?
        <==> forall i | 0 <= i < |subscriptions| :: EventsConfigOf(subscriptions[i]).None?
    ensures GetSubscriptionEventsConfig(subscriptions).Some? ==>
      forall c :: c in GetSubscriptionEventsConfig(subscriptions).value
        <==> exists i | 0 <= i < |subscriptions| :: EventsConfigOf(subscriptions[i]) == Some(c)
  {
    forall c {
      NonNullConfigsMembers(subscriptions, c);
    }
    var configs := NonNullConfigs(subscriptions);
    if |configs| > 0 {
      assert configs[0] in configs;
    } else {
      forall i | 0 <= i < |subscriptions|
        ensures EventsConfigOf(subscriptions[i]).None?
      {
        if EventsConfigOf(subscriptions[i]).Some? {
          NonNullConfigsMembers(subscriptions, EventsConfigOf(subscriptions[i]).value);
        }
      }
    }
  }

  // ---------------------------------------------------------------------------
  // Numeric settings

  /** `GetEventsTimtout`: the quiet period in seconds, 0 when the setting does not parse. */
  function GetEventsTimeout(rawValue: Option<string>): (r: int)
    ensures IsInt32(r)
  {
    match TryParseInt(rawValue)
    case Some(v) => v
    case None => 0
  }

  /** `GetMaxEmailFrequency`: minutes to milliseconds in wrapping `int` arithmetic, 0 on failure. */
  function GetMaxEmailFrequency(rawValue: Option<string>): (r: int)
    ensures IsInt32(r)
  {
    match TryParseInt(rawValue)
    case Some(v) => Wrap32(Wrap32(v * 60) * 1000)
    case None => 0
  }

  lemma GetEventsTimeoutOfText(n: int)
    requires IsInt32(n)
    ensures GetEventsTimeout(Some(IntToString(n))) == n
  {
    TryParseIntOfIntToString(n);
  }

  /** Up to 35791 minutes the frequency is exact milliseconds. */
  lemma GetMaxEmailFrequencyOfMinutes(minutes: int)
    requires 0 <= minutes <= 35791
    ensures GetMaxEmailFrequency(Some(IntToString(minutes))) == minutes * 60000
  {
    TryParseIntOfIntToString(minutes);
  }

  /**
   * From 35792 to 71582 minutes the product overflows `int` once and comes out
   * negative, 2^32 below the true value.
   */
  lemma GetMaxEmailFrequencyOverflows(minutes: int)
    requires 35792 <= minutes <= 71582
    ensures GetMaxEmailFrequency(Some(IntToString(minutes))) == minutes * 60000 - 0x1_0000_0000 < 0
  {
    TryParseIntOfIntToString(minutes);
    assert Wrap32(minutes * 60) == minutes * 60;
    Wrap32JustAbove(minutes * 60 * 1000);
  }

  /**
   * A setting that is missing, empty, or has a character other than a digit
   * after its first gives 0, for the timeout and the frequency alike.
   */
  lemma UnparsableSettingIsZero(rawValue: Option<string>)
    requires rawValue.None? || |rawValue.value| == 0
             || exists i | 0 < i < |rawValue.value| :: !IsDigit(rawValue.value[i])
    ensures GetEventsTimeout(rawValue) == 0 && GetMaxEmailFrequency(rawValue) == 0
  {
    if rawValue.Some? && |rawValue.value| > 0 {
      var t := rawValue.value;
      var i :| 0 < i < |t| && !IsDigit(t[i]);
      if t[0] == '-' || t[0] == '+' {
        assert t[1..][i - 1] == t[i];
      }
    }
  }

  // ---------------------------------------------------------------------------
  // Automation command table (GetAutomationActions)

  function CommandKey(c: AutomationCommand): string {
    GenerateCommandKey(c.Device, c.Event)
  }

  predicate KeysDistinct(commands: seq<AutomationCommand>) {
    forall i, j | 0 <= i < j < |commands| :: CommandKey(commands[i]) != CommandKey(commands[j])
  }

  /**
   * `ToDictionary(GenerateKey)`: the table of commands by device and event;
   * null when two commands share a key (the dictionary throws).
   */
  function GetAutomationActions(commands: seq<AutomationCommand>): Option<map<string, AutomationCommand>> {
    if |commands| == 0 then Some(map[])
    else
      var last := commands[|commands| - 1];
      match GetAutomationActions(commands[..|commands| - 1])
      case None => Option.None
      case Some(m) =>
        if CommandKey(last) in m then Option.None
        else Some(m[CommandKey(last) := last])
  }

  /** The table exists exactly when no two commands share a key. */
  lemma {:induction false} GetAutomationActionsDefined(commands: seq<AutomationCommand>)
    ensures GetAutomationActions(commands).Some? <==> KeysDistinct(commands)
  {
    if |commands| > 0 {
      var n := |commands| - 1;
      var init := commands[..n];
      GetAutomationActionsDefined(init);
      assert forall i | 0 <= i < n :: init[i] == commands[i];
      if GetAutomationActions(init).Some? {
        GetAutomationActionsContents(init);
        var m := GetAutomationActions(init).value;
        if CommandKey(commands[n]) in m {
          var i :| 0 <= i < n && CommandKey(init[i]) == CommandKey(commands[n]);
          assert CommandKey(commands[i]) == CommandKey(commands[n]);
        }
      }
    }
  }

  /** A table that exists holds every command under its key, and nothing else. */
  lemma {:induction false} GetAutomationActionsContents(commands: seq<AutomationCommand>)
    requires GetAutomationActions(commands).Some?
    ensures var m := GetAutomationActions(commands).value;
      && (forall k | k in m :: exists i | 0 <= i < |commands| :: CommandKey(commands[i]) == k)
      && forall i | 0 <= i < |commands| :: CommandKey(commands[i]) in m && m[CommandKey(commands[i])] == commands[i]
  {
    if |commands| > 0 {
      var n := |commands| - 1;
      var init := commands[..n];
      GetAutomationActionsContents(init);
      var m0 := GetAutomationActions(init).value;
      var m := GetAutomationActions(commands).value;
      var key := CommandKey(commands[n]);
      assert key !in m0 && m == m0[key := commands[n]];
      forall k | k in m ensures exists i | 0 <= i < |commands| :: CommandKey(commands[i]) == k {
        if k != key {
          var i :| 0 <= i < n && CommandKey(init[i]) == k;
          assert init[i] == commands[i];
        }
      }
      forall i | 0 <= i < |commands| ensures CommandKey(commands[i]) in m && m[CommandKey(commands[i])] == commands[i] {
        if i < n {
          assert init[i] == commands[i];
        }
      }
    }
  }
}
